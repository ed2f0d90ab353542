/** Block-exchange message codecs over deterministic CBOR (client/src/blockx.rs). */
module BlockExchange {
  import opened Base
  import opened Utf8
  import opened CborFits
  import opened CborMembers
  import opened Messages

  const MESSAGE_BYTES: nat := 1_114_112
  const BLOCK_BYTES: nat := 1_048_576
  const WANT_CIDS: nat := 64
  const BLOCKS_PER_MESSAGE: nat := 64
  const CID_BYTES: nat := 64

  const F_MAX: Name := "max"
  const F_CIDS: Name := "cids"
  const F_BLKS: Name := "blks"
  const T_BHELLO: Name := "BHELLO"
  const T_BWANT: Name := "BWANT"
  const T_BLOCKS: Name := "BLOCKS"
  const T_BDONE: Name := "BDONE"

  datatype Message =
    | BHello(v: u64, max: u64)
    | BWant(cids: seq<Octets>)
    | Blocks(blks: seq<Octets>)
    | BDone(cids: seq<Octets>)

  function TypeName(m: Message): Name {
    match m
    case BHello(_, _) => T_BHELLO
    case BWant(_) => T_BWANT
    case Blocks(_) => T_BLOCKS
    case BDone(_) => T_BDONE
  }

  function Names(m: Message): seq<Name> {
    match m
    case BHello(_, _) => [F_T, F_V, F_MAX]
    case BWant(_) => [F_T, F_CIDS]
    case Blocks(_) => [F_T, F_BLKS]
    case BDone(_) => [F_T, F_CIDS]
  }

  function Values(m: Message): (r: seq<Cbor.Value>)
    ensures |r| == |Names(m)|
  {
    var kind := Cbor.Text(Lit(TypeName(m)));
    match m
    case BHello(v, max) => [kind, Cbor.UInt(v), Cbor.UInt(max)]
    case BWant(cids) => [kind, Cbor.Array(ByteStrings(cids))]
    case Blocks(blks) => [kind, Cbor.Array(ByteStrings(blks))]
    case BDone(cids) => [kind, Cbor.Array(ByteStrings(cids))]
  }

  predicate NoRepeats(list: seq<Octets>) {
    forall i, j :: 0 <= i < j < |list| ==> list[i] != list[j]
  }

  /** What a sender may not emit: too large a declared maximum, or an identifier named twice. */
  function SenderRefusal(m: Message): Option<MessageError> {
    match m
    case BHello(_, max) => if max > BLOCK_BYTES then Some(LimitExceeded) else None
    case BWant(cids) => if NoRepeats(cids) then None else Some(Malformed)
    case BDone(cids) => if NoRepeats(cids) then None else Some(Malformed)
    case Blocks(_) => None
  }

  function EncodeMessage(m: Message): Checked<Octets> {
    match SenderRefusal(m)
    case Some(e) => Err(e)
    case None => Sealed(Members(Names(m), Values(m)), MESSAGE_BYTES)
  }

  /** Element by element: shape first, size second, stopping at the first refusal. */
  function EachBytes(items: seq<Cbor.Value>, each: nat): (r: Checked<seq<Octets>>)
    ensures r.Err? ==> r.error == Malformed || r.error == LimitExceeded
    ensures r.Ok? ==> |r.value| == |items| && forall i :: 0 <= i < |r.value| ==> |r.value[i]| <= each
  {
    if |items| == 0 then Ok([])
    else if !items[0].Bytes? then Err(Malformed)
    else if |items[0].bytes| > each then Err(LimitExceeded)
    else
      var rest :- EachBytes(items[1..], each);
      Ok([items[0].bytes] + rest)
  }

  function BstrArray(fields: Fields, name: Name, limit: nat, each: nat): (r: Checked<seq<Octets>>)
    ensures r.Err? ==> r.error == Malformed || r.error == LimitExceeded
    ensures r.Ok? ==> |r.value| <= limit && forall i :: 0 <= i < |r.value| ==> |r.value[i]| <= each
  {
    match Get(fields, name)
    case Some(Array(items)) => if |items| > limit then Err(LimitExceeded) else EachBytes(items, each)
    case _ => Err(Malformed)
  }

  predicate WithinEach(list: seq<Octets>, limit: nat, each: nat) {
    |list| <= limit && forall i :: 0 <= i < |list| ==> |list[i]| <= each
  }

  /** The bounds a receiver checks. A declared maximum is read and not acted upon. */
  predicate Bounded(m: Message) {
    match m
    case BHello(_, _) => true
    case BWant(cids) => WithinEach(cids, 64, 64)
    case BDone(cids) => WithinEach(cids, 64, 64)
    case Blocks(blks) => WithinEach(blks, 64, 1_048_576)
  }

  datatype Kind = KindBHello | KindBWant | KindBlocks | KindBDone

  function KindOf(text: Str): Option<Kind> {
    if text == Lit(T_BHELLO) then Some(KindBHello)
    else if text == Lit(T_BWANT) then Some(KindBWant)
    else if text == Lit(T_BDONE) then Some(KindBDone)
    else if text == Lit(T_BLOCKS) then Some(KindBlocks)
    else None
  }

  function BHelloFrom(fields: Fields): (r: Checked<Message>)
    ensures r.Err? ==> r.error == Malformed
  {
    var v, max := UintField(fields, F_V), UintField(fields, F_MAX);
    if v.Ok? && max.Ok? then Ok(BHello(v.value, max.value)) else Err(Malformed)
  }

  function MessageFrom(fields: Fields): (r: Checked<Message>)
    ensures r.Err? ==> r.error != NonCanonical && r.error != TooLarge
    ensures r.Ok? ==> Bounded(r.value)
  {
    var text :- TypeField(fields);
    match KindOf(text)
    case Some(KindBHello) => BHelloFrom(fields)
    case Some(KindBWant) =>
      var cids :- BstrArray(fields, F_CIDS, WANT_CIDS, CID_BYTES);
      Ok(BWant(cids))
    case Some(KindBDone) =>
      var cids :- BstrArray(fields, F_CIDS, WANT_CIDS, CID_BYTES);
      Ok(BDone(cids))
    case Some(KindBlocks) =>
      var blks :- BstrArray(fields, F_BLKS, BLOCKS_PER_MESSAGE, BLOCK_BYTES);
      Ok(Blocks(blks))
    case None => Err(UnknownType)
  }

  function DecodeMessage(bytes: Octets): (r: Checked<Message>)
    ensures r == Err(NonCanonical) <==> Unsealed(bytes, MESSAGE_BYTES) == Err(NonCanonical)
  {
    var fields :- Unsealed(bytes, MESSAGE_BYTES);
    MessageFrom(fields)
  }

  // ----- the codec as the source runs it -----

  /** Refuse a list that names an identifier twice, growing a set of those seen. */
  method AssertDistinct(cids: seq<Octets>) returns (r: Outcome<MessageError>)
    ensures r == if NoRepeats(cids) then Pass else Fail(Malformed)
  {
    var seen: set<Octets> := {};
    for i := 0 to |cids|
      invariant seen == set j | 0 <= j < i :: cids[j]
      invariant NoRepeats(cids[..i])
    {
      if cids[i] in seen {
        var j :| 0 <= j < i && cids[j] == cids[i];
        return Fail(Malformed);
      }
      seen := seen + {cids[i]};
    }
    assert cids[..|cids|] == cids;
    r := Pass;
  }

  method EncodeMembers(m: Message) returns (r: Checked<Octets>)
    ensures r == EncodeMessage(m)
  {
    var members := [Member(F_T, Cbor.Text(Lit(TypeName(m))))];
    match m {
      case BHello(v, max) =>
        if max > BLOCK_BYTES {
          return Err(LimitExceeded);
        }
        members := members + [Member(F_V, Cbor.UInt(v))];
        members := members + [Member(F_MAX, Cbor.UInt(max))];
      case BWant(cids) =>
        var distinct := AssertDistinct(cids);
        if distinct.Fail? {
          return Err(distinct.error);
        }
        members := members + [Member(F_CIDS, Cbor.Array(ByteStrings(cids)))];
      case BDone(cids) =>
        var distinct := AssertDistinct(cids);
        if distinct.Fail? {
          return Err(distinct.error);
        }
        members := members + [Member(F_CIDS, Cbor.Array(ByteStrings(cids)))];
      case Blocks(blks) =>
        members := members + [Member(F_BLKS, Cbor.Array(ByteStrings(blks)))];
    }
    assert members == Members(Names(m), Values(m));
    r := Seal(members, MESSAGE_BYTES);
  }

  /** The bounded array of byte strings: the count first, then each element in turn. */
  method ReadBstrArray(fields: Fields, name: Name, limit: nat, each: nat) returns (r: Checked<seq<Octets>>)
    ensures r == BstrArray(fields, name, limit, each)
  {
    var value := Get(fields, name);
    if value.None? || !value.value.Array? {
      return Err(Malformed);
    }
    var items := value.value.items;
    if |items| > limit {
      return Err(LimitExceeded);
    }
    var out: seq<Octets> := [];
    assert items[0..] == items;
    assert forall rest: seq<Octets> :: [] + rest == rest;
    for i := 0 to |items|
      invariant match EachBytes(items[i..], each)
                case Ok(rest) => EachBytes(items, each) == Ok(out + rest)
                case Err(e) => EachBytes(items, each) == Err(e)
    {
      assert items[i..][1..] == items[i + 1..];
      if !items[i].Bytes? {
        return Err(Malformed);
      }
      if |items[i].bytes| > each {
        return Err(LimitExceeded);
      }
      assert forall rest: seq<Octets> :: out + ([items[i].bytes] + rest) == (out + [items[i].bytes]) + rest;
      out := out + [items[i].bytes];
    }
    assert out + [] == out;
    r := Ok(out);
  }

  /** Decoding as the source runs it. */
  method Receive(bytes: Octets) returns (r: Checked<Message>)
    ensures r == DecodeMessage(bytes)
  {
    var fields :- Unseal(bytes, MESSAGE_BYTES);
    var text :- TypeField(fields);
    match KindOf(text) {
      case Some(KindBHello) => r := BHelloFrom(fields);
      case Some(KindBWant) =>
        var cids :- ReadBstrArray(fields, F_CIDS, WANT_CIDS, CID_BYTES);
        r := Ok(BWant(cids));
      case Some(KindBDone) =>
        var cids :- ReadBstrArray(fields, F_CIDS, WANT_CIDS, CID_BYTES);
        r := Ok(BDone(cids));
      case Some(KindBlocks) =>
        var blks :- ReadBstrArray(fields, F_BLKS, BLOCKS_PER_MESSAGE, BLOCK_BYTES);
        r := Ok(Blocks(blks));
      case None => r := Err(UnknownType);
    }
  }

  // ----- what the two directions promise together -----

  lemma {:induction false} NamesDiffer(m: Message)
    ensures Different(Names(m))
  {
  }

  lemma {:induction false} EachBytesBack(list: seq<Octets>, each: nat)
    ensures EachBytes(ByteStrings(list), each)
         == if forall i :: 0 <= i < |list| ==> |list[i]| <= each then Ok(list) else Err(LimitExceeded)
  {
    if |list| > 0 {
      EachBytesBack(list[1..], each);
      assert ByteStrings(list)[1..] == ByteStrings(list[1..]);
      assert [list[0]] + list[1..] == list;
      assert list[0] == list[0..][0];
      assert forall i :: 0 < i < |list| ==> list[i] == list[1..][i - 1];
    }
  }

  lemma {:induction false} ValuesFlat(m: Message)
    ensures forall i :: 0 <= i < |Values(m)| ==> Flat(Values(m)[i])
  {
  }

  lemma {:induction false} KindNamed(m: Message)
    ensures KindOf(Lit(TypeName(m)))
         == Some(match m
                 case BHello(_, _) => KindBHello
                 case BWant(_) => KindBWant
                 case Blocks(_) => KindBlocks
                 case BDone(_) => KindBDone)
  {
    LitInjective(TypeName(m), T_BHELLO);
    LitInjective(TypeName(m), T_BWANT);
    LitInjective(TypeName(m), T_BDONE);
  }

  /** A list that was sent, as the receiver reads it. */
  lemma {:induction false} ListSent(fields: Fields, m: Message, name: Name, list: seq<Octets>, limit: nat, each: nat)
    requires Carries(fields, Names(m), Values(m)) && |Names(m)| == 2 && Names(m)[1] == name
    requires Values(m)[1] == Cbor.Array(ByteStrings(list))
    ensures BstrArray(fields, name, limit, each) == if WithinEach(list, limit,
                                                                  each) then Ok(list) else Err(LimitExceeded)
  {
    EachBytesBack(list, each);
    hide EachBytes;
  }

  lemma {:induction false} MessageFromSent(m: Message, fields: Fields)
    requires Carries(fields, Names(m), Values(m))
    ensures MessageFrom(fields) == if Bounded(m) then Ok(m) else Err(LimitExceeded)
  {
    assert Names(m)[0] == F_T;
    KindNamed(m);
    hide KindOf, EachBytes, BstrArray;
    match m
    case BHello(_, _) => assert Names(m)[1] == F_V && Names(m)[2] == F_MAX;
    case BWant(cids) => ListSent(fields, m, F_CIDS, cids, WANT_CIDS, CID_BYTES);
    case BDone(cids) => ListSent(fields, m, F_CIDS, cids, WANT_CIDS, CID_BYTES);
    case Blocks(blks) => ListSent(fields, m, F_BLKS, blks, BLOCKS_PER_MESSAGE, BLOCK_BYTES);
  }

  /** What a sender emits comes back as itself when it respects the receiver's bounds, and is refused as
      exceeding a limit when it does not: it is never read as anything else. */
  lemma {:induction false} MessageRoundTrip(m: Message)
    requires EncodeMessage(m).Ok?
    ensures DecodeMessage(EncodeMessage(m).value) == if Bounded(m) then Ok(m) else Err(LimitExceeded)
  {
    NamesDiffer(m);
    ValuesFlat(m);
    SealedUnseals(Names(m), Values(m), MESSAGE_BYTES);
    MessageFromSent(m, Unsealed(EncodeMessage(m).value, MESSAGE_BYTES).value);
  }

  /** The octets a message takes. */
  function MessageLength(m: Message): nat {
    HeadLength(|Names(m)|) + MembersLength(Names(m), Values(m))
  }

  /** A sender emits a greeting that declares at most 1,048,576 octets, a list of identifiers none of which
      occurs twice, and any blocks, each exactly when the message is short enough; it names the first of
      these that fails. Counts and lengths of what a message lists are not among its objections. */
  lemma {:induction false} EmitsIff(m: Message)
    ensures EncodeMessage(m).Ok?
       <==> && MessageLength(m) <= 1_114_112
            && match m
               case BHello(_, max) => max <= 1_048_576
               case BWant(cids) => forall i, j :: 0 <= i < j < |cids| ==> cids[i] != cids[j]
               case BDone(cids) => forall i, j :: 0 <= i < j < |cids| ==> cids[i] != cids[j]
               case Blocks(_) => true
    ensures m.BHello? && m.max > 1_048_576 ==> EncodeMessage(m) == Err(LimitExceeded)
    ensures (m.BWant? || m.BDone?) && (exists i, j :: 0 <= i < j < |m.cids| && m.cids[i] == m.cids[j]) ==>
              EncodeMessage(m) == Err(Malformed)
    ensures EncodeMessage(m).Err? && 1_114_112 < MessageLength(m) < U64_LIMIT
            && (m.BHello? ==> m.max <= 1_048_576)
            && (m.BWant? || m.BDone? ==> forall i, j :: 0 <= i < j < |m.cids| ==> m.cids[i] != m.cids[j]) ==>
              EncodeMessage(m) == Err(TooLarge)
  {
    hide Sealed, MembersLength;
    NamesDiffer(m);
    ValuesFlat(m);
    SealsIffShort(Names(m), Values(m), MESSAGE_BYTES);
  }

  lemma {:induction false} PairLength(kind: Name, name: Name, list: seq<Octets>)
    requires |kind| <= 6 && |name| <= 4
    ensures var values := [Cbor.Text(Lit(kind)), Cbor.Array(ByteStrings(list))];
            HeadLength(2) + MembersLength([F_T, name], values) <= ItemsLength(ByteStrings(list)) + 32
  {
    hide ItemsLength, MembersLength;
    var first, second := Cbor.Text(Lit(kind)), Cbor.Array(ByteStrings(list));
    MembersLengthStep([], [], F_T, first);
    MembersLengthStep([F_T], [first], name, second);
    assert [F_T] + [name] == [F_T, name] && [first] + [second] == [first, second];
    assert [] + [F_T] == [F_T] && [] + [first] == [first];
    NoMembers();
  }

  lemma {:induction false} NoMembers()
    ensures MembersLength([], []) == 0
  {
  }

  lemma {:induction false} ListLength(list: seq<Octets>)
    ensures MessageLength(BWant(list)) <= ItemsLength(ByteStrings(list)) + 32
    ensures MessageLength(BDone(list)) <= ItemsLength(ByteStrings(list)) + 32
    ensures MessageLength(Blocks(list)) <= ItemsLength(ByteStrings(list)) + 32
  {
    hide ItemsLength, MembersLength;
    PairLength(T_BWANT, F_CIDS, list);
    PairLength(T_BDONE, F_CIDS, list);
    PairLength(T_BLOCKS, F_BLKS, list);
  }

  /** Senders emit what receivers refuse: any list of more than 64 different short identifiers, any of
      more than 64 short blocks, and any identifier of more than 64 octets, as long as the message stays
      short. */
  lemma {:induction false} EmittedAndRefused(list: seq<Octets>)
    requires NoRepeats(list) && |list| <= 1_000 && forall i :: 0 <= i < |list| ==> |list[i]| <= 1_000
    ensures EncodeMessage(BWant(list)).Ok? && EncodeMessage(BDone(list)).Ok? && EncodeMessage(Blocks(list)).Ok?
    ensures !WithinEach(list, WANT_CIDS, CID_BYTES) ==>
              && DecodeMessage(EncodeMessage(BWant(list)).value) == Err(LimitExceeded)
              && DecodeMessage(EncodeMessage(BDone(list)).value) == Err(LimitExceeded)
    ensures |list| > BLOCKS_PER_MESSAGE ==> DecodeMessage(EncodeMessage(Blocks(list)).value) == Err(LimitExceeded)
  {
    hide EncodeMessage, DecodeMessage, MessageLength;
    ByteStringsLength(list, 1_000);
    assert |list| * 1_009 <= 1_000 * 1_009;
    ListLength(list);
    EmitsIff(BWant(list));
    EmitsIff(BDone(list));
    EmitsIff(Blocks(list));
    MessageRoundTrip(BWant(list));
    MessageRoundTrip(BDone(list));
    MessageRoundTrip(Blocks(list));
  }

  /** For example 65 identifiers of one octet. */
  lemma {:induction false} SixtyFiveIdentifiers()
    ensures var list: seq<Octets> := seq(65, i requires 0 <= i < 65 => [i]);
            EncodeMessage(BWant(list)).Ok? && DecodeMessage(EncodeMessage(BWant(list)).value) == Err(LimitExceeded)
  {
    hide EncodeMessage, DecodeMessage;
    var list: seq<Octets> := seq(65, i requires 0 <= i < 65 => [i]);
    assert NoRepeats(list) by {
      forall i, j | 0 <= i < j < |list| ensures list[i] != list[j] {
        assert list[i][0] == i && list[j][0] == j;
      }
    }
    EmittedAndRefused(list);
  }

  /** Whatever is decoded respects the bounds, on arbitrary input. */
  lemma {:induction false} DecodedIsBounded(bytes: Octets)
    requires DecodeMessage(bytes).Ok?
    ensures Bounded(DecodeMessage(bytes).value) && |bytes| <= MESSAGE_BYTES
  {
  }

  // ----- the wire, both ways -----

  /** What a message is on the wire, field by field. */
  function WireFields(m: Message): seq<(Name, Cbor.Value)> {
    match m
    case BHello(v, max) => [("t", Cbor.Text(Lit("BHELLO"))), ("v", Cbor.UInt(v)), ("max", Cbor.UInt(max))]
    case BWant(cids) => [("t", Cbor.Text(Lit("BWANT"))), ("cids", Cbor.Array(ByteStrings(cids)))]
    case Blocks(blks) => [("t", Cbor.Text(Lit("BLOCKS"))), ("blks", Cbor.Array(ByteStrings(blks)))]
    case BDone(cids) => [("t", Cbor.Text(Lit("BDONE"))), ("cids", Cbor.Array(ByteStrings(cids)))]
  }

  /** What is emitted decodes to a map of exactly these fields. */
  lemma {:induction false} EmittedFields(m: Message)
    requires EncodeMessage(m).Ok?
    ensures HoldsExactly(EncodeMessage(m).value, WireFields(m))
  {
    NamesDiffer(m);
    ValuesFlat(m);
    FlatCanonical(Values(m));
    MembersHeld(Names(m), Values(m), WireFields(m));
  }

  lemma {:induction false} EachBytesOf(items: seq<Cbor.Value>, each: nat)
    requires EachBytes(items, each).Ok?
    ensures ByteStrings(EachBytes(items, each).value) == items
  {
    if |items| > 0 {
      EachBytesOf(items[1..], each);
      assert items == [items[0]] + items[1..];
      assert ByteStrings(EachBytes(items, each).value) == [items[0]] + ByteStrings(EachBytes(items[1..], each).value);
    }
  }

  /** The fields of a message, among any others. */
  ghost predicate Found(fields: Fields, m: Message) {
    forall i :: 0 <= i < |WireFields(m)| ==> Get(fields, WireFields(m)[i].0) == Some(WireFields(m)[i].1)
  }

  /** Octets are received as a message exactly when they are short enough, strictly encoded, a map that holds
      the fields of that message, and the message keeps the bounds. */
  lemma {:induction false} ReceivesIff(bytes: Octets, m: Message)
    ensures DecodeMessage(bytes) == Ok(m)
       <==> && |bytes| <= 1_114_112 && Bounded(m)
            && match Cbor.Decode(bytes)
               case Ok(Map(entries)) => Found(FieldMap(entries), m)
               case _ => false
  {
    ReencodeCheckUnreachable(bytes, MESSAGE_BYTES);
    if Unsealed(bytes, MESSAGE_BYTES).Ok? {
      ReadsIff(Unsealed(bytes, MESSAGE_BYTES).value, m);
    }
    hide MessageFrom, Found, Bounded, FieldMap;
  }

  lemma {:induction false} ReadsIff(fields: Fields, m: Message)
    ensures MessageFrom(fields) == Ok(m) <==> Bounded(m) && Found(fields, m)
  {
    FoundCarries(fields, m);
    if Found(fields, m) {
      MessageFromSent(m, fields);
    }
    if MessageFrom(fields) == Ok(m) {
      KindTexts(fields[Lit(F_T)].text);
      if !m.BHello? {
        EachBytesOf(fields[Lit(if m.Blocks? then F_BLKS else F_CIDS)].items,
                    if m.Blocks? then BLOCK_BYTES else CID_BYTES);
      }
    }
  }

  lemma {:induction false} FoundCarries(fields: Fields, m: Message)
    ensures Found(fields, m) <==> Carries(fields, Names(m), Values(m))
  {
    assert forall i :: 0 <= i < |Names(m)| ==> WireFields(m)[i] == (Names(m)[i], Values(m)[i]);
  }

  lemma {:induction false} KindTexts(text: Str)
    ensures match KindOf(text)
            case Some(KindBHello) => text == Lit(T_BHELLO)
            case Some(KindBWant) => text == Lit(T_BWANT)
            case Some(KindBlocks) => text == Lit(T_BLOCKS)
            case Some(KindBDone) => text == Lit(T_BDONE)
            case None => true
  {
  }

  /** Every refusal of a receiver says what is wrong: size, strict form, the type, and only then the rest. */
  lemma {:induction false} Refusals(bytes: Octets)
    ensures DecodeMessage(bytes) == Err(TooLarge) <==> |bytes| > 1_114_112
    ensures DecodeMessage(bytes) == Err(NonCanonical) <==> |bytes| <= 1_114_112 && Cbor.Decode(bytes).Err?
    ensures |bytes| <= 1_114_112 ==>
              match Cbor.Decode(bytes)
              case Err(_) => true
              case Ok(Map(entries)) =>
                var kind := Get(FieldMap(entries), "t");
                && (DecodeMessage(bytes) == Err(UnknownType)
                    <==> && kind.Some? && kind.value.Text?
                         && kind.value.text !in [Lit("BHELLO"), Lit("BWANT"), Lit("BLOCKS"), Lit("BDONE")])
                && (DecodeMessage(bytes) == Err(LimitExceeded)
                    <==> || (IsText(kind, ["BWANT", "BDONE"]) && Overfull(FieldMap(entries), "cids", 64, 64))
                         || (IsText(kind, ["BLOCKS"]) && Overfull(FieldMap(entries), "blks", 64, 1_048_576)))
              case _ => DecodeMessage(bytes) == Err(Malformed)
  {
    ReencodeCheckUnreachable(bytes, MESSAGE_BYTES);
    if Unsealed(bytes, MESSAGE_BYTES).Ok? {
      ReadRefusals(Unsealed(bytes, MESSAGE_BYTES).value);
    }
    hide MessageFrom, FieldMap, Overfull, Lit;
  }

  predicate IsText(field: Option<Cbor.Value>, names: seq<Name>) {
    exists i :: 0 <= i < |names| && field == Some(Cbor.Text(Lit(names[i])))
  }

  /** A list with too many elements, or with one that is too long and nothing wrong before it. */
  ghost predicate Overfull(fields: Fields, name: Name, limit: nat, each: nat) {
    match Get(fields, name)
    case Some(Array(items)) => |items| > limit || exists i :: TooLongAt(items, each, i)
    case _ => false
  }

  ghost predicate TooLongAt(items: seq<Cbor.Value>, each: nat, i: nat) {
    && i < |items| && items[i].Bytes? && |items[i].bytes| > each
    && forall j :: 0 <= j < i ==> items[j].Bytes? && |items[j].bytes| <= each
  }

  lemma {:induction false} ReadRefusals(fields: Fields)
    ensures MessageFrom(fields) == Err(UnknownType)
       <==> && Get(fields, "t").Some? && Get(fields, "t").value.Text?
            && Get(fields, "t").value.text !in [Lit("BHELLO"), Lit("BWANT"), Lit("BLOCKS"), Lit("BDONE")]
    ensures MessageFrom(fields) == Err(LimitExceeded)
       <==> || (IsText(Get(fields, "t"), ["BWANT", "BDONE"]) && Overfull(fields, "cids", 64, 64))
            || (IsText(Get(fields, "t"), ["BLOCKS"]) && Overfull(fields, "blks", 64, 1_048_576))
  {
    ListRefusal(fields, F_CIDS, WANT_CIDS, CID_BYTES);
    ListRefusal(fields, F_BLKS, BLOCKS_PER_MESSAGE, BLOCK_BYTES);
    Kinds(Get(fields, "t"));
    hide BstrArray, Overfull, IsText;
  }

  /** The four types are different texts. */
  lemma {:induction false} Kinds(kind: Option<Cbor.Value>)
    ensures IsText(kind, ["BLOCKS"]) <==> kind == Some(Cbor.Text(Lit(T_BLOCKS)))
    ensures IsText(kind, ["BWANT", "BDONE"])
       <==> kind == Some(Cbor.Text(Lit(T_BWANT))) || kind == Some(Cbor.Text(Lit(T_BDONE)))
    ensures Lit(T_BLOCKS) != Lit(T_BHELLO) && Lit(T_BLOCKS) != Lit(T_BWANT) && Lit(T_BLOCKS) != Lit(T_BDONE)
    ensures Lit(T_BHELLO) != Lit(T_BWANT) && Lit(T_BHELLO) != Lit(T_BDONE)
  {
    KindsDiffer();
    hide Lit;
    assert ["BLOCKS"][0] == T_BLOCKS && ["BWANT", "BDONE"][0] == T_BWANT && ["BWANT", "BDONE"][1] == T_BDONE;
  }

  lemma {:induction false} KindsDiffer()
    ensures Lit(T_BLOCKS) != Lit(T_BHELLO) && Lit(T_BLOCKS) != Lit(T_BWANT) && Lit(T_BLOCKS) != Lit(T_BDONE)
    ensures Lit(T_BHELLO) != Lit(T_BWANT) && Lit(T_BHELLO) != Lit(T_BDONE)
  {
    assert |Lit(T_BLOCKS)| == 6 && |Lit(T_BHELLO)| == 6 && |Lit(T_BWANT)| == 5 && |Lit(T_BDONE)| == 5;
    assert Lit(T_BLOCKS)[1] != Lit(T_BHELLO)[1];
  }

  lemma {:induction false} ListRefusal(fields: Fields, name: Name, limit: nat, each: nat)
    ensures BstrArray(fields, name, limit, each) == Err(LimitExceeded) <==> Overfull(fields, name, limit, each)
  {
    if Get(fields, name).Some? && Get(fields, name).value.Array? {
      ElementRefusal(Get(fields, name).value.items, each);
    }
  }

  lemma {:induction false} ElementRefusal(items: seq<Cbor.Value>, each: nat)
    ensures EachBytes(items, each) == Err(LimitExceeded) <==> exists i :: TooLongAt(items, each, i)
  {
    if |items| > 0 {
      if items[0].Bytes? && |items[0].bytes| <= each {
        var rest := items[1..];
        ElementRefusal(rest, each);
        forall i: nat | TooLongAt(rest, each, i) ensures TooLongAt(items, each, i + 1) {
          assert forall j :: 0 < j < i + 1 ==> items[j] == rest[j - 1];
        }
        forall i: nat | TooLongAt(items, each, i) ensures TooLongAt(rest, each, i - 1) {
          assert forall j :: 0 <= j < i - 1 ==> rest[j] == items[j + 1];
        }
      } else if items[0].Bytes? {
        assert TooLongAt(items, each, 0);
      }
    }
  }
}
