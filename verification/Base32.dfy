/** RFC 4648 section 6 base32, lower case and unpadded, with the 32-bit accumulators of the source
    (client/src/cid.rs). The specification regroups bits; the loops shift and mask. */
module Base32 {
  import opened Arith
  import opened Base

  type bit = x: int | 0 <= x < 2

  // ----- bits -----

  /** The low `k` bits of `x`, most significant first. */
  function BitsOf(x: nat, k: nat): (r: seq<bit>)
    ensures |r| == k
  {
    if k == 0 then [] else BitsOf(x / 2, k - 1) + [x % 2]
  }

  function ValueOf(bits: seq<bit>): nat
  {
    if |bits| == 0 then 0 else 2 * ValueOf(bits[..|bits| - 1]) + bits[|bits| - 1]
  }

  function Zeros(k: nat): seq<bit> {
    seq(k, _ => 0)
  }

  lemma {:induction false} ValueBound(bits: seq<bit>)
    ensures ValueOf(bits) < Pow2(|bits|)
  {
    if |bits| > 0 {
      ValueBound(bits[..|bits| - 1]);
    }
  }

  lemma {:induction false} BitsOfValue(bits: seq<bit>)
    ensures BitsOf(ValueOf(bits), |bits|) == bits
  {
    if |bits| > 0 {
      BitsOfValue(bits[..|bits| - 1]);
      assert bits == bits[..|bits| - 1] + [bits[|bits| - 1]];
    }
  }

  lemma {:induction false} ValueOfBits(x: nat, k: nat)
    requires x < Pow2(k)
    ensures ValueOf(BitsOf(x, k)) == x
  {
    if k > 0 {
      ValueOfBits(x / 2, k - 1);
      assert BitsOf(x, k)[..k - 1] == BitsOf(x / 2, k - 1);
    }
  }

  /** Splitting a field: the high bits are those of the quotient. */
  lemma {:induction false} BitsSplit(x: nat, hi: nat, lo: nat)
    ensures BitsOf(x, hi + lo) == BitsOf(Shr(x, lo), hi) + BitsOf(x, lo)
    decreases lo
  {
    if lo > 0 {
      BitsSplit(x / 2, hi, lo - 1);
      assert hi + lo - 1 == hi + (lo - 1);
      ShrTwice(x, 1, lo - 1);
      assert Shr(x, 1) == x / 2;
      assert BitsOf(x, hi + lo) == BitsOf(x / 2, hi + (lo - 1)) + [x % 2];
      assert BitsOf(x, lo) == BitsOf(x / 2, lo - 1) + [x % 2];
    } else {
      assert BitsOf(x, hi + 0) == BitsOf(x, hi) + [];
    }
  }

  /** Bits above the field do not show: this is why a wrapping accumulator is harmless. */
  lemma {:induction false} BitsIgnoreHigh(x: nat, y: nat, k: nat)
    requires x % Pow2(k) == y % Pow2(k)
    ensures BitsOf(x, k) == BitsOf(y, k)
  {
    if k > 0 {
      var m := Pow2(k - 1);
      HalfRemainder(x, m);
      HalfRemainder(y, m);
      BitsIgnoreHigh(x / 2, y / 2, k - 1);
    }
  }

  lemma {:induction false} HalfRemainder(x: nat, m: nat)
    requires m > 0
    ensures (x / 2) % m == (x % (2 * m)) / 2 && x % 2 == (x % (2 * m)) % 2
  {
    var q, r := x / (2 * m), x % (2 * m);
    assert x == q * (2 * m) + r;
    assert q * (2 * m) == 2 * (q * m);
    assert x / 2 == q * m + r / 2;
    DivModUnique(x / 2, m, q, r / 2);
  }

  // ----- regrouping -----

  /** All bits of a byte string. */
  function AllBits(bytes: Octets): (r: seq<bit>)
    ensures |r| == 8 * |bytes|
  {
    if |bytes| == 0 then [] else BitsOf(bytes[0], 8) + AllBits(bytes[1..])
  }

  type quintet = x: int | 0 <= x < 32

  function AllQuintetBits(groups: seq<quintet>): (r: seq<bit>)
    ensures |r| == 5 * |groups|
  {
    if |groups| == 0 then [] else BitsOf(groups[0], 5) + AllQuintetBits(groups[1..])
  }

  function Quintet(bits: seq<bit>): quintet
    requires |bits| == 5
  {
    ValueBound(bits);
    Pow2Values();
    ValueOf(bits)
  }

  /** Groups of five, the last one filled up with zeros. */
  function Quintets(bits: seq<bit>): seq<quintet>
    decreases |bits|
  {
    if |bits| == 0 then []
    else if |bits| < 5 then [Quintet(bits + Zeros(5 - |bits|))]
    else [Quintet(bits[..5])] + Quintets(bits[5..])
  }

  function AsOctet(bits: seq<bit>): byte
    requires |bits| == 8
  {
    ValueBound(bits);
    Pow2Values();
    ValueOf(bits)
  }

  /** Groups of eight; leftover bits are ignored. */
  function Octetise(bits: seq<bit>): Octets
    decreases |bits|
  {
    if |bits| < 8 then [] else [AsOctet(bits[..8])] + Octetise(bits[8..])
  }

  /** How many zeros the last group needs. */
  function Padding(n: nat): nat {
    (5 - n % 5) % 5
  }

  lemma {:induction false} QuintetsBack(bits: seq<bit>)
    ensures AllQuintetBits(Quintets(bits)) == bits + Zeros(Padding(|bits|))
    decreases |bits|
  {
    hide AllQuintetBits, Quintets;
    if |bits| < 5 {
      ShortGroup(bits);
    } else {
      FirstGroup(bits);
      QuintetsBack(bits[5..]);
      assert Padding(|bits[5..]|) == Padding(|bits|);
      Reassociate(bits[..5], bits[5..], Zeros(Padding(|bits|)));
      assert bits[..5] + bits[5..] == bits;
    }
  }

  lemma {:induction false} ShortGroup(bits: seq<bit>)
    requires |bits| < 5
    ensures AllQuintetBits(Quintets(bits)) == bits + Zeros(Padding(|bits|))
  {
    if |bits| == 0 {
      assert bits + Zeros(0) == bits;
    } else {
      assert Padding(|bits|) == 5 - |bits|;
      OneGroup(bits + Zeros(5 - |bits|));
    }
  }

  lemma {:induction false} OneGroup(bits: seq<bit>)
    requires |bits| == 5
    ensures AllQuintetBits([Quintet(bits)]) == bits
  {
    BitsOfValue(bits);
    assert BitsOf(Quintet(bits), |bits|) == bits;
    assert [Quintet(bits)][1..] == [];
    assert bits + AllQuintetBits([]) == bits;
  }

  lemma {:induction false} FirstGroup(bits: seq<bit>)
    requires |bits| >= 5
    ensures AllQuintetBits(Quintets(bits)) == bits[..5] + AllQuintetBits(Quintets(bits[5..]))
  {
    BitsOfValue(bits[..5]);
    var rest := Quintets(bits[5..]);
    var groups := [Quintet(bits[..5])] + rest;
    assert groups[1..] == rest;
    assert Quintets(bits) == groups;
  }

  lemma {:induction false} OctetiseBack(bytes: Octets, leftover: seq<bit>)
    requires |leftover| < 8
    ensures Octetise(AllBits(bytes) + leftover) == bytes
  {
    var bits := AllBits(bytes) + leftover;
    if |bytes| == 0 {
    } else {
      assert bits[..8] == BitsOf(bytes[0], 8);
      assert bits[8..] == AllBits(bytes[1..]) + leftover;
      Pow2Values();
      ValueOfBits(bytes[0], 8);
      OctetiseBack(bytes[1..], leftover);
      assert bytes == [bytes[0]] + bytes[1..];
    }
  }

  // ----- the alphabet -----

  /** Lower-case letters, then the digits 2 to 7. */
  function CharOf(q: quintet): byte {
    if q < 26 then 'a' as int + q else '2' as int + (q - 26)
  }

  function IndexOf(c: byte): Option<quintet> {
    if 'a' as int <= c <= 'z' as int then Some(c - 'a' as int)
    else if '2' as int <= c <= '7' as int then Some(c - '2' as int + 26)
    else None
  }

  function Chars(groups: seq<quintet>): (r: Octets)
    ensures |r| == |groups|
  {
    if |groups| == 0 then [] else [CharOf(groups[0])] + Chars(groups[1..])
  }

  /** The indices of all characters, unless one is outside the alphabet. */
  function Indices(text: Octets): (r: Option<seq<quintet>>)
    ensures r.Some? ==> |r.value| == |text|
  {
    if |text| == 0 then Some([])
    else
      match (IndexOf(text[0]), Indices(text[1..]))
      case (Some(q), Some(rest)) => Some([q] + rest)
      case _ => None
  }

  lemma {:induction false} IndicesBack(groups: seq<quintet>)
    ensures Indices(Chars(groups)) == Some(groups)
  {
    if |groups| > 0 {
      IndicesBack(groups[1..]);
      assert Chars(groups)[1..] == Chars(groups[1..]);
      assert [groups[0]] + groups[1..] == groups;
    }
  }

  function Encode(bytes: Octets): Octets {
    Chars(Quintets(AllBits(bytes)))
  }

  function Decode(text: Octets): Option<Octets> {
    match Indices(text)
    case Some(groups) => Some(Octetise(AllQuintetBits(groups)))
    case None => None
  }

  /** Decoding undoes encoding on every byte string. */
  lemma {:induction false} DecodeEncode(bytes: Octets)
    ensures Decode(Encode(bytes)) == Some(bytes)
  {
    var bits := AllBits(bytes);
    var groups := Quintets(bits);
    IndicesBack(groups);
    QuintetsBack(bits);
    OctetiseBack(bytes, Zeros(Padding(|bits|)));
  }

  lemma {:induction false} EncodeInjective(a: Octets, b: Octets)
    requires Encode(a) == Encode(b)
    ensures a == b
  {
    DecodeEncode(a);
    DecodeEncode(b);
  }

  // ----- the accumulators of the loops -----

  /** `(value << k) | low`, in 32 bits. */
  function PushBits(value: u32, k: nat, low: nat): (r: u32)
    requires k <= 8 && low < Pow2(k)
  {
    PushFits(value, k, low);
    value * Pow2(k) % U32_LIMIT + low
  }

  /** The shifted value is `k` zeros below what is left of `value` in 32 bits. */
  lemma {:induction false} PushFits(value: nat, k: nat, low: nat)
    requires k <= 8 && low < Pow2(k)
    ensures value * Pow2(k) % U32_LIMIT == (value % Pow2(32 - k)) * Pow2(k)
    ensures value * Pow2(k) % U32_LIMIT + low < U32_LIMIT
  {
    assert Pow2(32 - k) * Pow2(k) == U32_LIMIT by {
      Pow2Values();
      Pow2Sum(32 - k, k);
    }
    ScaledRemainder(value, Pow2(k), Pow2(32 - k));
  }

  /** Pushing bits appends them to the pending ones; what falls off the top was never pending. */
  lemma {:induction false} PushAppends(value: u32, bits: nat, k: nat, low: nat)
    requires k <= 8 && low < Pow2(k) && bits + k <= 32
    ensures BitsOf(PushBits(value, k, low), bits + k) == BitsOf(value, bits) + BitsOf(low, k)
  {
    var pushed := PushBits(value, k, low);
    var kept := value % Pow2(32 - k);
    PushFits(value, k, low);
    DivModUnique(pushed, Pow2(k), kept, low);
    assert Shr(pushed, k) == kept;
    BitsSplit(pushed, bits, k);
    DivModUnique(low, Pow2(k), 0, low);
    BitsIgnoreHigh(pushed, low, k);
    RemainderOfRemainder(value, bits, 32 - k);
    BitsIgnoreHigh(kept, value, bits);
  }

  lemma {:induction false} RemainderOfRemainder(x: nat, a: nat, b: nat)
    requires a <= b
    ensures (x % Pow2(b)) % Pow2(a) == x % Pow2(a)
  {
    Pow2Sum(b - a, a);
    NestedRemainder(x, Pow2(b - a), Pow2(a));
  }

  /** `(value >> rest) & mask`: the oldest `k` of the pending bits. */
  function PopBits(value: nat, rest: nat, k: nat): nat {
    Shr(value, rest) % Pow2(k)
  }

  lemma {:induction false} PopTakesOldest(value: nat, rest: nat, k: nat)
    ensures BitsOf(value, k + rest) == BitsOf(PopBits(value, rest, k), k) + BitsOf(value, rest)
    ensures PopBits(value, rest, k) < Pow2(k)
    ensures ValueOf(BitsOf(PopBits(value, rest, k), k)) == PopBits(value, rest, k)
  {
    BitsSplit(value, k, rest);
    var x := Shr(value, rest);
    RemainderOfRemainder(x, k, k);
    BitsIgnoreHigh(x % Pow2(k), x, k);
    ValueOfBits(x % Pow2(k), k);
  }

  lemma {:induction false} LowZeros(value: nat, k: nat)
    ensures BitsOf(value * Pow2(k), k) == Zeros(k)
  {
    if k > 0 {
      LowZeros(value, k - 1);
      TwiceScaled(value, Pow2(k - 1));
      hide Pow2;
      assert Zeros(k) == Zeros(k - 1) + [0];
    }
  }

  lemma {:induction false} TwiceScaled(value: nat, p: nat)
    ensures value * (2 * p) / 2 == value * p && value * (2 * p) % 2 == 0
  {
    assert value * (2 * p) == 2 * (value * p);
  }

  /** The last, partial group: the pending bits with zeros below them. */
  lemma {:induction false} PadsWithZeros(value: u32, bits: nat)
    requires 0 < bits < 5
    ensures PushBits(value, 5 - bits, 0) % 32 < 32
    ensures BitsOf(PushBits(value, 5 - bits, 0) % 32, 5) == BitsOf(value, bits) + Zeros(5 - bits)
  {
    var k := 5 - bits;
    var pushed := PushBits(value, k, 0);
    PushAppends(value, bits, k, 0);
    LowZeros(0, k);
    assert 0 * Pow2(k) == 0;
    Pow2Values();
    RemainderOfRemainder(pushed, 5, 5);
    BitsIgnoreHigh(pushed % 32, pushed, 5);
  }

  /** The text of a bit string. */
  function BitsText(bits: seq<bit>): Octets {
    Chars(Quintets(bits))
  }

  lemma {:induction false} BitsTextStep(q: quintet, rest: seq<bit>)
    ensures BitsText(BitsOf(q, 5) + rest) == [CharOf(q)] + BitsText(rest)
  {
    var bits := BitsOf(q, 5) + rest;
    assert bits[..5] == BitsOf(q, 5) && bits[5..] == rest;
    Pow2Values();
    ValueOfBits(q, 5);
    assert Quintets(bits) == [q] + Quintets(rest);
    assert ([q] + Quintets(rest))[1..] == Quintets(rest);
  }

  lemma {:induction false} PushOctet(value: u32, bits: nat, b: byte, rest: seq<bit>)
    requires bits <= 24
    ensures b < Pow2(8)
    ensures BitsOf(value, bits) + (BitsOf(b, 8) + rest) == BitsOf(PushBits(value, 8, b), bits + 8) + rest
  {
    hide BitsOf, PushBits, Pow2;
    Pow2Values();
    PushAppends(value, bits, 8, b);
    Reassociate(BitsOf(value, bits), BitsOf(b, 8), rest);
  }

  lemma {:induction false} PopText(value: nat, bits: nat, rest: seq<bit>)
    requires bits >= 5
    ensures PopBits(value, bits - 5, 5) < 32
    ensures BitsText(BitsOf(value, bits) + rest)
         == [CharOf(PopBits(value, bits - 5, 5))] + BitsText(BitsOf(value, bits - 5) + rest)
  {
    hide BitsOf, PopBits, Pow2, BitsText, CharOf;
    Pow2Values();
    PopTakesOldest(value, bits - 5, 5);
    var q := PopBits(value, bits - 5, 5);
    Reassociate(BitsOf(q, 5), BitsOf(value, bits - 5), rest);
    BitsTextStep(q, BitsOf(value, bits - 5) + rest);
  }

  lemma {:induction false} LastText(value: u32, bits: nat)
    requires 0 < bits < 5
    ensures BitsText(BitsOf(value, bits)) == [CharOf(PushBits(value, 5 - bits, 0) % 32)]
  {
    PadsWithZeros(value, bits);
    var q := PushBits(value, 5 - bits, 0) % 32;
    Pow2Values();
    ValueOfBits(q, 5);
    assert Quintets(BitsOf(value, bits)) == [q];
    assert Chars([q]) == [CharOf(q)];
  }

  lemma {:induction false} PushQuintet(value: u32, bits: nat, q: quintet, rest: seq<bit>)
    requires bits <= 24
    ensures q < Pow2(5)
    ensures BitsOf(value, bits) + (BitsOf(q, 5) + rest) == BitsOf(PushBits(value, 5, q), bits + 5) + rest
  {
    hide BitsOf, PushBits, Pow2;
    Pow2Values();
    PushAppends(value, bits, 5, q);
    Reassociate(BitsOf(value, bits), BitsOf(q, 5), rest);
  }

  lemma {:induction false} PopOctet(value: nat, bits: nat, rest: seq<bit>)
    requires bits >= 8
    ensures PopBits(value, bits - 8, 8) < 256
    ensures Octetise(BitsOf(value, bits) + rest)
         == [PopBits(value, bits - 8, 8)] + Octetise(BitsOf(value, bits - 8) + rest)
  {
    hide BitsOf, PopBits, Pow2, Octetise;
    Pow2Values();
    PopTakesOldest(value, bits - 8, 8);
    var b := PopBits(value, bits - 8, 8);
    Reassociate(BitsOf(b, 8), BitsOf(value, bits - 8), rest);
    OctetiseStep(b, BitsOf(value, bits - 8) + rest);
  }

  lemma {:induction false} OctetiseStep(b: byte, rest: seq<bit>)
    ensures Octetise(BitsOf(b, 8) + rest) == [b] + Octetise(rest)
  {
    var bits := BitsOf(b, 8) + rest;
    assert bits[..8] == BitsOf(b, 8) && bits[8..] == rest;
    Pow2Values();
    ValueOfBits(b, 8);
  }

  method EncodeText(bytes: Octets) returns (out: Octets)
    ensures out == Encode(bytes)
  {
    out := [];
    var bits: nat, value: u32 := 0, 0;
    assert bytes[0..] == bytes && BitsOf(0, 0) + AllBits(bytes) == AllBits(bytes);
    for i := 0 to |bytes|
      invariant bits < 5
      invariant Encode(bytes) == out + BitsText(BitsOf(value, bits) + AllBits(bytes[i..]))
    {
      ghost var rest := AllBits(bytes[i + 1..]);
      assert bytes[i..][1..] == bytes[i + 1..];
      PushOctet(value, bits, bytes[i], rest);
      value := PushBits(value, 8, bytes[i]);
      bits := bits + 8;
      while bits >= 5
        invariant bits < 13
        invariant Encode(bytes) == out + BitsText(BitsOf(value, bits) + rest)
      {
        PopText(value, bits, rest);
        bits := bits - 5;
        var c := CharOf(PopBits(value, bits, 5));
        Reassociate(out, [c], BitsText(BitsOf(value, bits) + rest));
        out := out + [c];
      }
    }
    assert BitsOf(value, bits) + AllBits(bytes[|bytes|..]) == BitsOf(value, bits);
    if bits > 0 {
      LastText(value, bits);
      out := out + [CharOf(PushBits(value, 5 - bits, 0) % 32)];
    } else {
      assert out + BitsText([]) == out;
    }
  }

  /** What decoding the rest of a text adds to the pending bits. */
  function Regrouped(pending: seq<bit>, rest: Octets): Option<Octets> {
    match Indices(rest)
    case Some(groups) => Some(Octetise(pending + AllQuintetBits(groups)))
    case None => None
  }

  function Joined(out: Octets, rest: Option<Octets>): Option<Octets> {
    match rest
    case Some(more) => Some(out + more)
    case None => None
  }

  lemma {:induction false} RegroupChar(value: u32, bits: nat, rest: Octets)
    requires bits <= 24 && |rest| > 0
    ensures match IndexOf(rest[0])
            case Some(q) => q < Pow2(5) && Regrouped(BitsOf(value, bits), rest)
                                        == Regrouped(BitsOf(PushBits(value, 5, q), bits + 5), rest[1..])
            case None => Regrouped(BitsOf(value, bits), rest) == None
  {
    match (IndexOf(rest[0]), Indices(rest[1..]))
    case (Some(q), Some(groups)) =>
      PushQuintet(value, bits, q, AllQuintetBits(groups));
      assert ([q] + groups)[1..] == groups;
    case (Some(q), None) => Pow2Values();
    case (None, _) =>
  }

  lemma {:induction false} RegroupOctet(out: Octets, value: u32, bits: nat, rest: Octets)
    requires bits >= 8
    ensures PopBits(value, bits - 8, 8) < 256
    ensures Joined(out, Regrouped(BitsOf(value, bits), rest))
         == Joined(out + [PopBits(value, bits - 8, 8)], Regrouped(BitsOf(value, bits - 8), rest))
  {
    match Indices(rest)
    case Some(groups) =>
      PopOctet(value, bits, AllQuintetBits(groups));
      Reassociate(out, [PopBits(value, bits - 8, 8)], Octetise(BitsOf(value, bits - 8) + AllQuintetBits(groups)));
    case None =>
      Pow2Values();
      PopTakesOldest(value, bits - 8, 8);
  }

  lemma {:induction false} NothingPending(text: Octets)
    ensures Joined([], Regrouped([], text)) == Decode(text)
  {
    if Indices(text).Some? {
      assert [] + AllQuintetBits(Indices(text).value) == AllQuintetBits(Indices(text).value);
      assert [] + Octetise(AllQuintetBits(Indices(text).value)) == Octetise(AllQuintetBits(Indices(text).value));
    }
  }

  method DecodeText(text: Octets) returns (r: Option<Octets>)
    ensures r == Decode(text)
  {
    var out: Octets := [];
    var bits: nat, value: u32 := 0, 0;
    assert text[0..] == text;
    NothingPending(text);
    for i := 0 to |text|
      invariant bits < 8
      invariant Decode(text) == Joined(out, Regrouped(BitsOf(value, bits), text[i..]))
    {
      assert text[i..][1..] == text[i + 1..];
      RegroupChar(value, bits, text[i..]);
      var index := IndexOf(text[i]);
      if index.None? {
        return None;
      }
      value := PushBits(value, 5, index.value);
      bits := bits + 5;
      if bits >= 8 {
        RegroupOctet(out, value, bits, text[i + 1..]);
        bits := bits - 8;
        out := out + [PopBits(value, bits, 8)];
      }
    }
    assert Indices(text[|text|..]) == Some([]);
    assert BitsOf(value, bits) + AllQuintetBits([]) == BitsOf(value, bits);
    assert out + Octetise(BitsOf(value, bits)) == out;
    r := Some(out);
  }

  // ----- which texts are printed -----

  lemma {:induction false} CharsOfIndices(text: Octets)
    requires Indices(text).Some?
    ensures Chars(Indices(text).value) == text
  {
    if |text| > 0 {
      CharsOfIndices(text[1..]);
      var q, rest := IndexOf(text[0]).value, Indices(text[1..]).value;
      assert ([q] + rest)[1..] == rest;
      assert text == [text[0]] + text[1..];
    }
  }

  lemma {:induction false} FirstOctet(bits: seq<bit>)
    requires |bits| >= 8
    ensures |Octetise(bits)| == 1 + |Octetise(bits[8..])|
    ensures AllBits(Octetise(bits)) == bits[..8] + AllBits(Octetise(bits[8..]))
  {
    BitsOfValue(bits[..8]);
    var b, rest := AsOctet(bits[..8]), Octetise(bits[8..]);
    assert ([b] + rest)[1..] == rest;
  }

  lemma {:induction false} OctetiseSplits(bits: seq<bit>)
    ensures |Octetise(bits)| == |bits| / 8
    ensures bits == AllBits(Octetise(bits)) + bits[8 * (|bits| / 8)..]
    decreases |bits|
  {
    if |bits| >= 8 {
      var tail := bits[8..];
      OctetiseSplits(tail);
      FirstOctet(bits);
      hide Octetise, AllBits, AsOctet;
      assert bits == bits[..8] + tail;
      assert bits[8 * (|bits| / 8)..] == tail[8 * (|tail| / 8)..];
      Reassociate(bits[..8], AllBits(Octetise(tail)), tail[8 * (|tail| / 8)..]);
    }
  }

  lemma {:induction false} QuintetBitsInjective(a: seq<quintet>, b: seq<quintet>)
    requires AllQuintetBits(a) == AllQuintetBits(b)
    ensures a == b
  {
    if |a| > 0 {
      assert |b| > 0;
      var all := AllQuintetBits(a);
      assert all[..5] == BitsOf(a[0], 5) && all[..5] == BitsOf(b[0], 5);
      assert all[5..] == AllQuintetBits(a[1..]) && all[5..] == AllQuintetBits(b[1..]);
      Pow2Values();
      ValueOfBits(a[0], 5);
      ValueOfBits(b[0], 5);
      QuintetBitsInjective(a[1..], b[1..]);
      assert a == [a[0]] + a[1..] && b == [b[0]] + b[1..];
    }
  }

  /** The bits a decoder drops at the end of a text. */
  function Leftover(text: Octets): seq<bit>
    requires Indices(text).Some?
  {
    var bits := AllQuintetBits(Indices(text).value);
    bits[8 * (|bits| / 8)..]
  }

  /** A decodable text is the printed one exactly when fewer than five bits are left over and all
      of them are zero: the decoder itself ignores them. */
  lemma {:induction false} PrintedIffNoLeftover(text: Octets)
    requires Decode(text).Some?
    ensures Encode(Decode(text).value) == text
       <==> |Leftover(text)| < 5 && Leftover(text) == Zeros(|Leftover(text)|)
  {
    var groups := Indices(text).value;
    var bits := AllBits(Octetise(AllQuintetBits(groups)));
    OctetiseSplits(AllQuintetBits(groups));
    CharsOfIndices(text);
    IndicesBack(Quintets(bits));
    SameGroups(bits, Leftover(text), groups);
  }

  lemma {:induction false} SameGroups(bits: seq<bit>, left: seq<bit>, groups: seq<quintet>)
    requires AllQuintetBits(groups) == bits + left
    ensures Quintets(bits) == groups <==> |left| < 5 && left == Zeros(|left|)
  {
    QuintetsBack(bits);
    if |left| < 5 && left == Zeros(|left|) {
      assert |left| == Padding(|bits|);
      QuintetBitsInjective(Quintets(bits), groups);
    }
    if Quintets(bits) == groups {
      assert (bits + left)[|bits|..] == left;
      assert (bits + Zeros(Padding(|bits|)))[|bits|..] == Zeros(Padding(|bits|));
    }
  }

  lemma {:induction false} DecodedLength(text: Octets)
    requires Decode(text).Some?
    ensures |Decode(text).value| == 5 * |text| / 8 && |Leftover(text)| == 5 * |text| % 8
  {
    OctetiseSplits(AllQuintetBits(Indices(text).value));
  }

  lemma {:induction false} EncodedLength(bytes: Octets)
    ensures |Encode(bytes)| == (8 * |bytes| + 4) / 5
  {
    var bits := AllBits(bytes);
    QuintetsBack(bits);
    assert 5 * |Quintets(bits)| == |bits| + Padding(|bits|);
  }

  lemma {:induction false} IndicesStep(x: byte, rest: Octets)
    requires IndexOf(x).Some? && Indices(rest).Some?
    ensures Indices([x] + rest) == Some([IndexOf(x).value] + Indices(rest).value)
  {
    hide IndexOf;
    var text := [x] + rest;
    assert text[1..] == rest && text[0] == x;
  }

  lemma {:induction false} TwoIndices(x: byte, y: byte)
    requires IndexOf(x).Some? && IndexOf(y).Some?
    ensures Indices([x, y]) == Some([IndexOf(x).value, IndexOf(y).value])
  {
    IndicesStep(y, []);
    IndicesStep(x, [y]);
    assert [y] + [] == [y] && [x] + [y] == [x, y];
    var i, j := IndexOf(x).value, IndexOf(y).value;
    NoIndices();
    assert [j] + [] == [j] && [i] + [j] == [i, j];
  }

  lemma {:induction false} NoIndices()
    ensures Indices([]) == Some([])
  {
  }

  lemma {:induction false} TwoGroups(x: quintet, y: quintet)
    ensures AllQuintetBits([x, y]) == BitsOf(x, 5) + BitsOf(y, 5)
  {
    hide BitsOf;
    assert [x, y][1..] == [y] && [y][1..] == [];
    assert AllQuintetBits([y]) == BitsOf(y, 5) + [];
  }

  /** "ab" stands for one zero octet, and is not how one is printed: it has two bits to spare, and they are
      not zero. */
  lemma {:induction false} SpareBits()
    ensures var text: Octets := ['a' as int, 'b' as int];
            Decode(text) == Some([0]) && Encode([0]) != text
  {
    hide Octetise, Indices, AllQuintetBits, Encode;
    var text: Octets := ['a' as int, 'b' as int];
    TwoIndices('a' as int, 'b' as int);
    TwoGroups(0, 1);
    BitsOfZero(8);
    BitsOfZero(5);
    BitsOfZero(4);
    var spare: seq<bit> := [0, 1];
    assert BitsOf(0, 5) + BitsOf(1, 5) == AllBits([0]) + spare by {
      assert AllBits([0]) == BitsOf(0, 8) + AllBits([0][1..]);
    }
    OctetiseBack([0], spare);
    assert Decode(text) == Some([0]);
    PrintedIffNoLeftover(text);
    assert Leftover(text) == (AllBits([0]) + spare)[8..] == spare;
    assert Leftover(text)[1] != Zeros(2)[1];
  }

  lemma {:induction false} BitsOfZero(k: nat)
    ensures BitsOf(0, k) == Zeros(k)
  {
    if k > 0 {
      BitsOfZero(k - 1);
    }
  }
}
