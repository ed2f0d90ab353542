/** Content identifiers in the one admitted shape: CIDv1, raw or dag-pb, sha2-256
    (client/src/cid.rs). */
module Cid {
  import opened Base
  import Varint
  import Base32

  const CID_VERSION: u64 := 1
  const CHUNK_BYTES: nat := 262_144
  const MAX_LINKS: nat := 174
  const CODEC_RAW: u64 := 0x55
  const CODEC_DAG_PB: u64 := 0x70
  const MULTIHASH_SHA2_256: u64 := 0x12
  const DIGEST_BYTES: nat := 32

  type Digest = d: Octets | |d| == DIGEST_BYTES witness seq(DIGEST_BYTES, _ => 0)

  /** sha2-256, left uninterpreted: every statement holds for every function of this type. */
  type Hash = Octets -> Digest

  datatype ContentError = BadCid

  datatype Cid = Cid(version: u64, codec: u64, digest: Digest)

  function RawFromBytes(sha: Hash, bytes: Octets): Cid {
    Cid(CID_VERSION, CODEC_RAW, sha(bytes))
  }

  function ToBytes(c: Cid): Octets {
    Varint.Write(c.version) + Varint.Write(c.codec) + Varint.Write(MULTIHASH_SHA2_256) + Varint.Write(DIGEST_BYTES)
    + c.digest
  }

  predicate KnownCodec(codec: u64) {
    codec == CODEC_RAW || codec == CODEC_DAG_PB
  }

  /** The shape this protocol uses; any other decodes to a refusal. */
  predicate Admitted(c: Cid) {
    c.version == CID_VERSION && KnownCodec(c.codec)
  }

  function FromBytes(b: Octets): Result<Cid, ContentError> {
    match Varint.Read(b)
    case Err(_) => Err(BadCid)
    case Ok(Number(version, b1)) =>
      if version != CID_VERSION then Err(BadCid)
      else
        match Varint.Read(b1)
        case Err(_) => Err(BadCid)
        case Ok(Number(codec, b2)) =>
          if !KnownCodec(codec) then Err(BadCid)
          else
            match Varint.Read(b2)
            case Err(_) => Err(BadCid)
            case Ok(Number(multihash, b3)) =>
              if multihash != MULTIHASH_SHA2_256 then Err(BadCid)
              else
                match Varint.Read(b3)
                case Err(_) => Err(BadCid)
                case Ok(Number(length, b4)) =>
                  if length != DIGEST_BYTES || |b4| != DIGEST_BYTES then Err(BadCid)
                  else Ok(Cid(version, codec, b4))
  }

  const MULTIBASE: byte := 'b' as int

  function ToText(c: Cid): Octets {
    [MULTIBASE] + Base32.Encode(ToBytes(c))
  }

  function FromText(text: Octets): Result<Cid, ContentError> {
    if |text| == 0 || text[0] != MULTIBASE then Err(BadCid)
    else
      match Base32.Decode(text[1..])
      case None => Err(BadCid)
      case Some(bytes) => FromBytes(bytes)
  }

  // ----- the loops -----

  method WriteBytes(c: Cid) returns (out: Octets)
    ensures out == ToBytes(c)
  {
    out := Varint.WriteInto(c.version, []);
    out := Varint.WriteInto(c.codec, out);
    out := Varint.WriteInto(MULTIHASH_SHA2_256, out);
    out := Varint.WriteInto(DIGEST_BYTES, out);
    out := out + c.digest;
    assert [] + Varint.Write(c.version) == Varint.Write(c.version);
  }

  method ParseBytes(bytes: Octets) returns (r: Result<Cid, ContentError>)
    ensures r == FromBytes(bytes)
  {
    assert bytes[0..] == bytes;
    var version, at := Varint.ReadAt(bytes, 0);
    if version.Err? || version.value != CID_VERSION {
      return Err(BadCid);
    }
    var codec;
    codec, at := Varint.ReadAt(bytes, at);
    if codec.Err? || (codec.value != CODEC_RAW && codec.value != CODEC_DAG_PB) {
      return Err(BadCid);
    }
    var multihash;
    multihash, at := Varint.ReadAt(bytes, at);
    if multihash.Err? || multihash.value != MULTIHASH_SHA2_256 {
      return Err(BadCid);
    }
    var length;
    length, at := Varint.ReadAt(bytes, at);
    if length.Err? || length.value != DIGEST_BYTES || |bytes| - at != DIGEST_BYTES {
      return Err(BadCid);
    }
    r := Ok(Cid(version.value, codec.value, bytes[at..]));
  }

  method PrintText(c: Cid) returns (text: Octets)
    ensures text == ToText(c)
  {
    var bytes := WriteBytes(c);
    var encoded := Base32.EncodeText(bytes);
    text := [MULTIBASE] + encoded;
  }

  method ParseText(text: Octets) returns (r: Result<Cid, ContentError>)
    ensures r == FromText(text)
  {
    if |text| == 0 || text[0] != MULTIBASE {
      return Err(BadCid);
    }
    var bytes := Base32.DecodeText(text[1..]);
    if bytes.None? {
      return Err(BadCid);
    }
    r := ParseBytes(bytes.value);
  }

  // ----- what printing and parsing promise together -----

  lemma {:induction false} ReadBytesBack(c: Cid)
    ensures var b1 := Varint.Write(c.codec) + Varint.Write(MULTIHASH_SHA2_256) + Varint.Write(DIGEST_BYTES) + c.digest;
            var b2 := Varint.Write(MULTIHASH_SHA2_256) + Varint.Write(DIGEST_BYTES) + c.digest;
            var b3 := Varint.Write(DIGEST_BYTES) + c.digest;
            && Varint.Read(ToBytes(c)) == Ok(Varint.Number(c.version, b1))
            && Varint.Read(b1) == Ok(Varint.Number(c.codec, b2))
            && Varint.Read(b2) == Ok(Varint.Number(MULTIHASH_SHA2_256, b3))
            && Varint.Read(b3) == Ok(Varint.Number(DIGEST_BYTES, c.digest))
  {
    var w1, w2, w3, w4 :=
      Varint.Write(c.version), Varint.Write(c.codec), Varint.Write(MULTIHASH_SHA2_256), Varint.Write(DIGEST_BYTES);
    assert ToBytes(c) == w1 + (w2 + w3 + w4 + c.digest);
    assert w2 + w3 + w4 + c.digest == w2 + (w3 + w4 + c.digest);
    assert w3 + w4 + c.digest == w3 + (w4 + c.digest);
    Varint.WriteReadsBack(c.version, w2 + w3 + w4 + c.digest);
    Varint.WriteReadsBack(c.codec, w3 + w4 + c.digest);
    Varint.WriteReadsBack(MULTIHASH_SHA2_256, w4 + c.digest);
    Varint.WriteReadsBack(DIGEST_BYTES, c.digest);
  }

  /** The binary form parses back exactly when the identifier has the admitted shape. */
  lemma {:induction false} BytesRoundTrip(c: Cid)
    ensures FromBytes(ToBytes(c)) == if Admitted(c) then Ok(c) else Err(BadCid)
  {
    ReadBytesBack(c);
  }

  lemma {:induction false} ToBytesInjective(c: Cid, d: Cid)
    requires ToBytes(c) == ToBytes(d)
    ensures c == d
  {
    ReadBytesBack(c);
    ReadBytesBack(d);
  }

  lemma {:induction false} ToTextInjective(c: Cid, d: Cid)
    requires ToText(c) == ToText(d)
    ensures c == d
  {
    assert ToText(c)[1..] == Base32.Encode(ToBytes(c));
    assert ToText(d)[1..] == Base32.Encode(ToBytes(d));
    Base32.EncodeInjective(ToBytes(c), ToBytes(d));
    ToBytesInjective(c, d);
  }

  lemma {:induction false} TextRoundTrip(c: Cid)
    ensures FromText(ToText(c)) == if Admitted(c) then Ok(c) else Err(BadCid)
  {
    assert ToText(c)[1..] == Base32.Encode(ToBytes(c));
    Base32.DecodeEncode(ToBytes(c));
    BytesRoundTrip(c);
  }

  lemma {:induction false} SmallWrites()
    ensures Varint.Write(CID_VERSION) == [CID_VERSION] && Varint.Write(MULTIHASH_SHA2_256) == [MULTIHASH_SHA2_256]
    ensures Varint.Write(CODEC_RAW) == [CODEC_RAW] && Varint.Write(CODEC_DAG_PB) == [CODEC_DAG_PB]
    ensures Varint.Write(DIGEST_BYTES) == [DIGEST_BYTES]
  {
  }

  lemma {:induction false} AdmittedBytes(c: Cid)
    requires Admitted(c)
    ensures ToBytes(c) == [c.version, c.codec, MULTIHASH_SHA2_256, DIGEST_BYTES] + c.digest
    ensures |ToBytes(c)| == 4 + DIGEST_BYTES
  {
    SmallWrites();
  }

  /** Four varints of one octet each and the digest: nothing longer is minimal. */
  lemma {:induction false} ShortestBytes(b: Octets, c: Cid)
    requires FromBytes(b) == Ok(c) && |b| == 4 + DIGEST_BYTES
    ensures b == ToBytes(c)
  {
    var r1 := Varint.Read(b).value;
    var r2 := Varint.Read(r1.rest).value;
    var r3 := Varint.Read(r2.rest).value;
    Varint.OneOctet(b);
    Varint.OneOctet(r1.rest);
    Varint.OneOctet(r2.rest);
    Varint.OneOctet(r3.rest);
    AdmittedBytes(c);
  }

  /** Printing undoes parsing exactly on 36-octet input: longer accepted inputs use varints longer
      than they need be. */
  lemma {:induction false} PrintedIffShortest(b: Octets)
    requires FromBytes(b).Ok?
    ensures ToBytes(FromBytes(b).value) == b <==> |b| == 4 + DIGEST_BYTES
  {
    var c := FromBytes(b).value;
    AdmittedBytes(c);
    if |b| == 4 + DIGEST_BYTES {
      ShortestBytes(b, c);
    }
  }

  /** A text that parses is the printed one exactly when it is 59 characters long and the two bits
      its last character has to spare are zero. */
  lemma {:induction false} PrintedTextIff(text: Octets)
    requires FromText(text).Ok?
    ensures ToText(FromText(text).value) == text
       <==> |text| == 59 && Base32.Leftover(text[1..]) == Base32.Zeros(2)
  {
    var encoded := text[1..];
    var bytes := Base32.Decode(encoded).value;
    var c := FromText(text).value;
    Base32.PrintedIffNoLeftover(encoded);
    Base32.DecodedLength(encoded);
    PrintedIffShortest(bytes);
    assert text == [MULTIBASE] + encoded;
    if ToText(c) == text {
      assert ToText(c)[1..] == Base32.Encode(ToBytes(c));
      Base32.DecodeEncode(ToBytes(c));
      assert bytes == ToBytes(c);
      Base32.EncodedLength(bytes);
      AdmittedBytes(c);
    }
  }

  /** Every identifier is also accepted in a longer spelling, binary and as text: its version in a varint of
      two octets. */
  lemma {:induction false} LongSpelling(c: Cid)
    requires Admitted(c)
    ensures var long := [c.version + 128, 0] + ToBytes(c)[1..];
            && FromBytes(long) == Ok(c) && long != ToBytes(c)
            && FromText([MULTIBASE] + Base32.Encode(long)) == Ok(c) && [MULTIBASE] + Base32.Encode(long) != ToText(c)
  {
    AdmittedBytes(c);
    BytesRoundTrip(c);
    var rest := ToBytes(c)[1..];
    var long: Octets := [c.version + 128, 0] + rest;
    Varint.OneLonger(c.version, rest);
    Varint.WriteReadsBack(c.version, rest);
    assert ToBytes(c) == Varint.Write(c.version) + rest;
    var text := [MULTIBASE] + Base32.Encode(long);
    assert text[1..] == Base32.Encode(long) && ToText(c)[1..] == Base32.Encode(ToBytes(c));
    Base32.DecodeEncode(long);
    Base32.DecodeEncode(ToBytes(c));
    assert |long| != |ToBytes(c)|;
  }
}
