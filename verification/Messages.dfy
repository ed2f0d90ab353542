/** What the two wire codecs (client/src/replicate.rs and client/src/blockx.rs) share: a size-bounded map
    of named fields in deterministic CBOR, and the fields both read the same way. */
module Messages {
  import opened Base
  import opened Utf8
  import opened CborCanonical
  import opened CborFits
  import opened CborMembers
  import CborCodec

  type Value = Cbor.Value

  /** The refusal vocabulary of both codecs, without the explanatory texts. */
  datatype MessageError = TooLarge | NonCanonical | Malformed | UnknownType | LimitExceeded

  type Checked<+T> = Result<T, MessageError>

  const F_T: Name := "t"
  const F_V: Name := "v"

  // ----- the envelope -----

  /** The octets of a message, refused when they are too many. */
  function Sealed(members: seq<Cbor.Entry>, limit: nat): Checked<Octets> {
    match Cbor.Encode(Cbor.Map(members))
    case Err(_) => Err(Malformed)
    case Ok(bytes) => if |bytes| > limit then Err(TooLarge) else Ok(bytes)
  }

  /** The fields of a message: size before anything, then strict decoding, then the octets must come back. */
  function Unsealed(bytes: Octets, limit: nat): Checked<Fields> {
    if |bytes| > limit then Err(TooLarge)
    else
      match Cbor.Decode(bytes)
      case Err(_) => Err(NonCanonical)
      case Ok(decoded) =>
        if Cbor.Encode(decoded) != Ok(bytes) then Err(NonCanonical)
        else if !decoded.Map? then Err(Malformed)
        else Ok(FieldMap(decoded.entries))
  }

  method Seal(members: seq<Cbor.Entry>, limit: nat) returns (r: Checked<Octets>)
    ensures r == Sealed(members, limit)
  {
    var bytes := CborCodec.EncodeWhole(Cbor.Map(members));
    if bytes.Err? {
      return Err(Malformed);
    }
    if |bytes.value| > limit {
      return Err(TooLarge);
    }
    r := Ok(bytes.value);
  }

  method Unseal(bytes: Octets, limit: nat) returns (r: Checked<Fields>)
    ensures r == Unsealed(bytes, limit)
  {
    if |bytes| > limit {
      return Err(TooLarge);
    }
    var decoded := CborCodec.DecodeAll(bytes);
    if decoded.Err? {
      return Err(NonCanonical);
    }
    var reencoded := CborCodec.EncodeWhole(decoded.value);
    if reencoded != Ok(bytes) {
      return Err(NonCanonical);
    }
    if !decoded.value.Map? {
      return Err(Malformed);
    }
    r := Ok(FieldMap(decoded.value.entries));
  }

  // ----- fields -----

  function UintField(fields: Fields, name: Name): (r: Checked<u64>)
    ensures r.Err? ==> r.error == Malformed
  {
    match Get(fields, name)
    case Some(UInt(n)) => Ok(n)
    case _ => Err(Malformed)
  }

  /** The text a message names its type by. */
  function TypeField(fields: Fields): (r: Checked<Str>)
    ensures r.Err? ==> r.error == Malformed
  {
    match Get(fields, F_T)
    case Some(Text(text)) => Ok(text)
    case _ => Err(Malformed)
  }

  // ----- what the two directions promise together -----

  /** What a sealed message carries is what unsealing it finds, name by name. */
  lemma {:induction false} SealedUnseals(names: seq<Name>, values: seq<Value>, limit: nat)
    requires |names| == |values| && Different(names)
    requires forall i :: 0 <= i < |values| ==> Flat(values[i])
    requires Sealed(Members(names, values), limit).Ok?
    ensures var fields := Unsealed(Sealed(Members(names, values), limit).value, limit);
            fields.Ok? && Carries(fields.value, names, values)
  {
    MembersDecode(names, values);
    FlatCanonical(values);
    StrictDecodingIsCanonical(Sealed(Members(names, values), limit).value);
  }

  /** The second, re-encoding, check never refuses anything: only undecodable input is NonCanonical. */
  lemma {:induction false} ReencodeCheckUnreachable(bytes: Octets, limit: nat)
    ensures Unsealed(bytes, limit) == Err(NonCanonical) <==> |bytes| <= limit && Cbor.Decode(bytes).Err?
  {
    if Cbor.Decode(bytes).Ok? {
      StrictDecodingIsCanonical(bytes);
    }
  }

  /** A message of flat fields is sealed exactly when it is short enough, and is too large otherwise. */
  lemma {:induction false} SealsIffShort(names: seq<Name>, values: seq<Value>, limit: nat)
    requires |names| == |values| && Different(names) && limit < U64_LIMIT
    requires forall i :: 0 <= i < |values| ==> Flat(values[i])
    ensures Sealed(Members(names, values), limit).Ok? <==> HeadLength(|names|) + MembersLength(names, values) <= limit
    ensures limit < HeadLength(|names|) + MembersLength(names, values) < U64_LIMIT ==>
              Sealed(Members(names, values), limit) == Err(TooLarge)
  {
    MembersAreLong(names, values);
    var members := Cbor.Map(Members(names, values));
    if Cbor.Encode(members).Ok? {
      EncodesToLength(members, 0);
    } else if HeadLength(|names|) + MembersLength(names, values) < U64_LIMIT {
      MembersLengthBounds(names, values);
      forall i | 0 <= i < |values| ensures Fits(values[i], 1) {
        FlatFits(values[i], 1);
      }
      MembersFit(names, values, 0);
    }
  }

  lemma {:induction false} MembersLengthBounds(names: seq<Name>, values: seq<Value>)
    requires |names| == |values|
    ensures MembersLength(names, values) >= |names|
    ensures forall i :: 0 <= i < |values| ==> EncodedLength(values[i]) <= MembersLength(names, values)
  {
    hide EncodedLength;
    if |names| > 0 {
      MembersLengthBounds(names[..|names| - 1], values[..|names| - 1]);
    }
  }

  lemma {:induction false} ItemsLengthBounds(items: seq<Value>)
    ensures ItemsLength(items) >= |items|
    ensures forall v :: v in items ==> EncodedLength(v) <= ItemsLength(items)
  {
    if |items| > 0 {
      ItemsLengthBounds(items[1..]);
    }
  }

  lemma {:induction false} FlatFits(v: Value, depth: nat)
    requires Flat(v) && EncodedLength(v) < U64_LIMIT && depth < Cbor.MAX_DEPTH
    ensures Fits(v, depth)
  {
    hide Fits;
    if v.Array? {
      ItemsLengthBounds(v.items);
      forall x | x in v.items ensures Fits(x, depth + 1) {
        ScalarFits(x, depth + 1);
      }
      ArrayFits(v.items, depth);
    } else {
      ScalarFits(v, depth);
    }
  }

  /** A list of strings of at most `each` octets takes at most nine more for each. */
  lemma {:induction false} ByteStringsLength(list: seq<Octets>, each: nat)
    requires forall i :: 0 <= i < |list| ==> |list[i]| <= each
    ensures ItemsLength(ByteStrings(list)) <= |list| * (each + 9)
  {
    if |list| > 0 {
      assert ByteStrings(list)[1..] == ByteStrings(list[1..]);
      ByteStringsLength(list[1..], each);
      assert |list| * (each + 9) == |list[1..]| * (each + 9) + (each + 9);
    }
  }
}
