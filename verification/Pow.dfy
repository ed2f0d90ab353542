/** Proof of work (client/src/pow.rs): the difficulty schedule, the salt derived from a record, the
    search for a nonce. SHA-256 and Argon2id are parameters: every statement holds for all functions. */
module Pow {
  import opened Arith
  import opened Base
  import opened Utf8
  import opened Cbor
  import opened CborMembers
  import opened Domain
  import Cid

  const POW_ALGORITHM: string := "argon2id-v19-m65536-t2-p1"
  const POW_NONCE_LENGTH: nat := 16
  const POW_SALT_PREFIX: Octets := Ascii("vayuweb-pow-v1")
  const POW_SALT_LENGTH: nat := 16
  const MAX_DIFFICULTY_BITS: nat := 20
  const EPOCH_SECONDS: nat := 3_600
  const RATE_WINDOW_SECONDS: nat := 2_592_000
  const RATE_FLOOR: nat := 512

  /** Argon2id at the protocol's parameters: nonce and salt to tag. */
  type Argon = (Octets, Octets) -> Octets

  type Nonce = n: Octets | |n| == POW_NONCE_LENGTH witness seq(POW_NONCE_LENGTH, _ => 0)

  // ----- the difficulty schedule -----

  /** `63 - leading_zeros`, on a positive value. */
  function FloorLog2(value: nat): nat
    requires value > 0
  {
    if value == 1 then 0 else 1 + FloorLog2(value / 2)
  }

  lemma {:induction false} FloorLog2Bounds(value: nat)
    requires value > 0
    ensures Pow2(FloorLog2(value)) <= value < Pow2(FloorLog2(value) + 1)
  {
    if value > 1 {
      FloorLog2Bounds(value / 2);
    }
  }

  function BaseBits(labelLength: nat): nat {
    if labelLength <= 2 then 10
    else if labelLength == 3 then 9
    else if labelLength == 4 then 8
    else if labelLength <= 6 then 7
    else if labelLength <= 9 then 6
    else if labelLength <= 15 then 5
    else 4
  }

  function RequiredBits(labelLength: nat, windowCount: u64): nat {
    var rate := if windowCount < RATE_FLOOR then 0 else Min(FloorLog2(windowCount / RATE_FLOOR), 8);
    Min(BaseBits(labelLength) + rate, MAX_DIFFICULTY_BITS)
  }

  /** The rate term is the largest number of doublings of the floor, up to eight, that the count has
      reached; the cap of twenty bits never bites. */
  lemma {:induction false} RateTerm(labelLength: nat, windowCount: u64, doublings: nat)
    requires 1 <= doublings <= 8
    ensures 4 <= RequiredBits(labelLength, windowCount) <= 18
    ensures RequiredBits(labelLength, windowCount) >= BaseBits(labelLength) + doublings
       <==> windowCount >= RATE_FLOOR * Pow2(doublings)
  {
    if windowCount >= RATE_FLOOR {
      var q := windowCount / RATE_FLOOR;
      FloorLog2Bounds(q);
      var r := FloorLog2(q);
      Pow2Grows(r + 1, doublings);
      Pow2Grows(doublings, r);
      Floored(windowCount, RATE_FLOOR, Pow2(doublings));
    } else {
      assert Pow2(doublings) >= 1;
    }
  }

  /** The schedule in numbers: from ten bits for the shortest labels down to four, and one more each time the
      count of the window doubles from 1,024 on, eight at most. */
  lemma {:induction false} ScheduleIs(labelLength: nat, windowCount: u64)
    ensures RequiredBits(labelLength, windowCount)
         == (if labelLength <= 2 then 10 else if labelLength == 3 then 9 else if labelLength == 4 then 8
             else if labelLength <= 6 then 7 else if labelLength <= 9 then 6 else if labelLength <= 15 then 5 else 4)
            + (if windowCount < 1_024 then 0 else if windowCount < 2_048 then 1 else if windowCount < 4_096 then 2
               else if windowCount < 8_192 then 3 else if windowCount < 16_384 then 4
               else if windowCount < 32_768 then 5 else if windowCount < 65_536 then 6
               else if windowCount < 131_072 then 7 else 8)
  {
    assert Pow2(1) == 2 && Pow2(2) == 4 && Pow2(3) == 8 && Pow2(4) == 16;
    assert Pow2(5) == 32 && Pow2(6) == 64 && Pow2(7) == 128 && Pow2(8) == 256;
    hide FloorLog2, Pow2;
    RateTerm(labelLength, windowCount, 1);
    RateTerm(labelLength, windowCount, 2);
    RateTerm(labelLength, windowCount, 3);
    RateTerm(labelLength, windowCount, 4);
    RateTerm(labelLength, windowCount, 5);
    RateTerm(labelLength, windowCount, 6);
    RateTerm(labelLength, windowCount, 7);
    RateTerm(labelLength, windowCount, 8);
    RateWithin(labelLength, windowCount);
  }

  lemma {:induction false} RateWithin(labelLength: nat, windowCount: u64)
    ensures 0 <= RequiredBits(labelLength, windowCount) - BaseBits(labelLength) <= 8
  {
    hide FloorLog2;
  }

  lemma {:induction false} Pow2Grows(a: nat, b: nat)
    ensures a <= b ==> Pow2(a) <= Pow2(b)
  {
    if a < b {
      Pow2Below(a, b);
    }
  }

  lemma {:induction false} Floored(n: nat, m: nat, k: nat)
    requires m > 0
    ensures n / m >= k <==> n >= m * k
  {
    assert n == m * (n / m) + n % m;
    if n / m >= k {
      assert m * (n / m) >= m * k;
    } else {
      assert m * (n / m + 1) <= m * k;
    }
  }

  /** More registrations never cost less, longer labels never cost more. */
  lemma {:induction false} RequiredBitsMonotone(shorter: nat, longer: nat, fewer: u64, more: u64)
    requires shorter <= longer && fewer <= more
    ensures RequiredBits(shorter, fewer) <= RequiredBits(shorter, more)
    ensures RequiredBits(longer, fewer) <= RequiredBits(shorter, fewer)
  {
    var rate := RequiredBits(shorter, fewer) - BaseBits(shorter);
    if rate > 0 {
      RateTerm(shorter, fewer, rate);
      RateTerm(shorter, more, rate);
    }
  }

  /** The trailing window of the hour a record belongs to. `None`: the subtraction underflows. */
  function RateWindow(notBefore: u64): Option<(u64, u64)> {
    var end := notBefore / EPOCH_SECONDS * EPOCH_SECONDS;
    if end < RATE_WINDOW_SECONDS then None else Some((end - RATE_WINDOW_SECONDS, end))
  }

  /** All instants of one hour share one window of exactly thirty days that ends with the hour's start. */
  lemma {:induction false} WindowShared(notBefore: u64, other: u64)
    ensures RateWindow(notBefore).Some? ==>
              var (start, end) := RateWindow(notBefore).value;
              && end - start == 2_592_000 && end <= notBefore < end + 3_600 && end % 3_600 == 0
              && (end <= other < end + 3_600 ==> RateWindow(other) == RateWindow(notBefore))
    ensures RateWindow(notBefore).None? <==> notBefore < 2_592_000
  {
    var end := notBefore / EPOCH_SECONDS * EPOCH_SECONDS;
    if end <= other < end + EPOCH_SECONDS {
      assert other / EPOCH_SECONDS == notBefore / EPOCH_SECONDS;
    }
  }

  // ----- the salt -----

  const NONCE: Name := "nonce"
  const POW_PROOF: Name := "powProof"

  predicate HasName(e: Entry, name: Name) {
    e.key == TextKey(Lit(name))
  }

  /** The proof map without its nonce; keys must be text. */
  function StripProof(proof: seq<Entry>): Result<seq<Entry>, CborError>
  {
    if |proof| == 0 then Ok([])
    else
      var kept :- StripProof(proof[..|proof| - 1]);
      var last := proof[|proof| - 1];
      if last.key.BytesKey? then Err(BadMapKey)
      else if HasName(last, NONCE) then Ok(kept)
      else Ok(kept + [last])
  }

  /** One field of the preimage: dropped, cut or kept. */
  function StripField(e: Entry): Result<seq<Entry>, CborError> {
    if e.key.BytesKey? then Err(BadMapKey)
    else if HasName(e, SIG) then Ok([])
    else if HasName(e, POW_PROOF) then
      if !e.value.Map? then Err(BadMapKey)
      else
        var kept :- StripProof(e.value.entries);
        Ok([Entry(e.key, Map(kept))])
    else Ok([e])
  }

  /** The record without `sig` and without the nonce of its proof. */
  function Strip(record: seq<Entry>): Result<seq<Entry>, CborError>
  {
    if |record| == 0 then Ok([])
    else
      var kept :- Strip(record[..|record| - 1]);
      var field :- StripField(record[|record| - 1]);
      Ok(kept + field)
  }

  function SaltPreimage(record: seq<Entry>): Result<Octets, CborError> {
    var stripped :- Strip(record);
    var body :- Encode(Map(stripped));
    Ok(POW_SALT_PREFIX + body)
  }

  function Salt(sha: Cid.Hash, record: seq<Entry>): Result<Octets, CborError> {
    var preimage :- SaltPreimage(record);
    Ok(sha(preimage)[..POW_SALT_LENGTH])
  }

  lemma {:induction false} StripProofRefusalStays(proof: seq<Entry>, i: nat)
    requires i <= |proof| && StripProof(proof[..i]).Err?
    ensures StripProof(proof) == StripProof(proof[..i])
    decreases |proof|
  {
    if i < |proof| {
      assert proof[..|proof| - 1][..i] == proof[..i];
      StripProofRefusalStays(proof[..|proof| - 1], i);
    } else {
      assert proof[..i] == proof;
    }
  }

  lemma {:induction false} StripRefusalStays(record: seq<Entry>, i: nat)
    requires i <= |record| && Strip(record[..i]).Err?
    ensures Strip(record) == Strip(record[..i])
    decreases |record|
  {
    if i < |record| {
      assert record[..|record| - 1][..i] == record[..i];
      StripRefusalStays(record[..|record| - 1], i);
    } else {
      assert record[..i] == record;
    }
  }

  method StripNonce(proof: seq<Entry>) returns (r: Result<seq<Entry>, CborError>)
    ensures r == StripProof(proof)
  {
    var kept: seq<Entry> := [];
    for i := 0 to |proof|
      invariant StripProof(proof[..i]) == Ok(kept)
    {
      assert proof[..i + 1][..i] == proof[..i];
      if proof[i].key.BytesKey? {
        StripProofRefusalStays(proof, i + 1);
        return Err(BadMapKey);
      }
      if proof[i].key.text != Lit(NONCE) {
        kept := kept + [proof[i]];
      }
    }
    assert proof[..|proof|] == proof;
    r := Ok(kept);
  }

  method StripRecord(record: seq<Entry>) returns (r: Result<seq<Entry>, CborError>)
    ensures r == Strip(record)
  {
    var stripped: seq<Entry> := [];
    for i := 0 to |record|
      invariant Strip(record[..i]) == Ok(stripped)
    {
      assert record[..i + 1][..i] == record[..i];
      var e := record[i];
      if e.key.BytesKey? {
        StripRefusalStays(record, i + 1);
        return Err(BadMapKey);
      }
      if e.key.text == Lit(SIG) {
        assert stripped + [] == stripped;
        continue;
      }
      if e.key.text == Lit(POW_PROOF) {
        if !e.value.Map? {
          StripRefusalStays(record, i + 1);
          return Err(BadMapKey);
        }
        var without := StripNonce(e.value.entries);
        if without.Err? {
          StripRefusalStays(record, i + 1);
          return Err(without.error);
        }
        stripped := stripped + [Entry(e.key, Map(without.value))];
        continue;
      }
      stripped := stripped + [e];
    }
    assert record[..|record|] == record;
    r := Ok(stripped);
  }

  // ----- the leading-zero test -----

  /** The tag starts with at least this many zero bits: read as one big-endian number it is small. */
  predicate TagSatisfies(tag: Octets, bits: nat) {
    bits <= 8 * |tag| && FromBigEndian(tag) < Pow2(8 * |tag| - bits)
  }

  function BitLength(value: nat): nat {
    if value == 0 then 0 else 1 + BitLength(value / 2)
  }

  lemma {:induction false} BitLengthBounds(value: nat, m: nat)
    ensures BitLength(value) <= m <==> value < Pow2(m)
  {
    if value > 0 {
      if m > 0 {
        BitLengthBounds(value / 2, m - 1);
      }
    }
  }

  lemma {:induction false} NextBit(prefix: nat, bit: nat)
    requires bit < 2
    ensures BitLength(2 * prefix + bit) == if prefix == 0 then bit else 1 + BitLength(prefix)
  {
    assert (2 * prefix + bit) / 2 == prefix;
  }

  lemma {:induction false} ShiftStep(b: nat, shift: nat)
    ensures Shr(b, shift) == 2 * Shr(b, shift + 1) + Shr(b, shift) % 2
  {
    ShrTwice(b, shift, 1);
    assert Pow2(1) == 2;
  }

  lemma {:induction false} OctetDone(tag: Octets, i: nat)
    requires i < |tag|
    ensures FromBigEndian(tag[..i + 1]) == 256 * FromBigEndian(tag[..i]) + tag[i]
  {
    assert tag[..i + 1][..i] == tag[..i];
  }

  /** Count over all bits, most significant first, without an early exit. */
  method CheckTag(tag: Octets, bits: nat) returns (satisfied: bool)
    ensures satisfied <==> TagSatisfies(tag, bits)
  {
    hide BitLength, TagSatisfies;
    BitLengthBounds(0, 0);
    var leading: nat, stillZero: nat := 0, 1;
    for i := 0 to |tag|
      invariant stillZero == if FromBigEndian(tag[..i]) == 0 then 1 else 0
      invariant leading == 8 * i - BitLength(FromBigEndian(tag[..i]))
    {
      ghost var before := FromBigEndian(tag[..i]);
      hide FromBigEndian;
      var b := tag[i];
      ghost var prefix := before;
      ShiftEnds(b);
      hide Shr, Pow2;
      for shift := 8 downto 0
        invariant prefix == before * Pow2(8 - shift) + Shr(b, shift)
        invariant stillZero == if prefix == 0 then 1 else 0
        invariant leading == 8 * i + (8 - shift) - BitLength(prefix)
      {
        var isZero := if Shr(b, shift) % 2 == 0 then 1 else 0;
        ShiftStep(b, shift);
        NextBit(prefix, Shr(b, shift) % 2);
        Doubled(before, 8 - (shift + 1));
        prefix := 2 * prefix + Shr(b, shift) % 2;
        stillZero := if stillZero == 1 && isZero == 1 then 1 else 0;
        leading := leading + stillZero;
      }
      assert prefix == before * 256 + b;
      OctetDone(tag, i);
    }
    assert tag[..|tag|] == tag;
    TagZeros(tag, bits);
    satisfied := leading >= bits;
  }

  lemma {:induction false} Doubled(x: nat, k: nat)
    ensures 2 * (x * Pow2(k)) == x * Pow2(k + 1)
  {
    assert Pow2(k + 1) == 2 * Pow2(k);
  }

  lemma {:induction false} ShiftEnds(b: byte)
    ensures Pow2(0) == 1 && Pow2(8) == 256 && Shr(b, 8) == 0 && Shr(b, 0) == b
  {
    Pow2Values();
    assert Pow2(0) == 1;
  }

  lemma {:induction false} TagZeros(tag: Octets, bits: nat)
    ensures TagSatisfies(tag, bits) <==> 8 * |tag| - BitLength(FromBigEndian(tag)) >= bits
  {
    if bits <= 8 * |tag| {
      BitLengthBounds(FromBigEndian(tag), 8 * |tag| - bits);
    }
  }

  // ----- the nonce -----

  lemma {:induction false} Appended(a: Octets, b: Octets)
    ensures FromBigEndian(a + b) == FromBigEndian(a) * Pow256(|b|) + FromBigEndian(b)
  {
    if |b| == 0 {
      assert a + b == a;
    } else {
      var front := b[..|b| - 1];
      Appended(a, front);
      assert (a + b)[..|a + b| - 1] == a + front;
      assert 256 * (FromBigEndian(a) * Pow256(|front|)) == FromBigEndian(a) * Pow256(|b|);
    }
  }

  function Fill(n: nat, b: byte): (r: Octets)
    ensures |r| == n && forall i :: 0 <= i < n ==> r[i] == b
  {
    seq(n, i requires 0 <= i < n => b)
  }

  lemma {:induction false} FillValues(n: nat)
    ensures FromBigEndian(Fill(n, 0)) == 0 && FromBigEndian(Fill(n, 255)) == Pow256(n) - 1
  {
    if n > 0 {
      FillValues(n - 1);
      assert Fill(n, 0)[..n - 1] == Fill(n - 1, 0);
      assert Fill(n, 255)[..n - 1] == Fill(n - 1, 255);
    }
  }

  /** Carrying over `k` full octets adds one. */
  lemma {:induction false} Carried(front: Octets, b: byte, k: nat)
    requires b < 255
    ensures FromBigEndian(front + [b + 1] + Fill(k, 0)) == FromBigEndian(front + [b] + Fill(k, 255)) + 1
  {
    FillValues(k);
    Appended(front + [b + 1], Fill(k, 0));
    Appended(front + [b], Fill(k, 255));
    assert (front + [b + 1])[..|front|] == front && (front + [b])[..|front|] == front;
    var v := FromBigEndian(front + [b]);
    assert FromBigEndian(front + [b + 1]) == v + 1;
    assert (v + 1) * Pow256(k) == v * Pow256(k) + Pow256(k);
  }

  lemma {:induction false} BelowModulus(x: nat, m: nat)
    requires x < m
    ensures x % m == x
  {
  }

  lemma {:induction false} WholeModulus(m: nat)
    requires m > 0
    ensures m % m == 0
  {
  }

  /** Big-endian increment in place, wrapping at the end of the space. */
  method IncrementNonce(nonce: array<byte>)
    modifies nonce
    ensures FromBigEndian(nonce[..]) == (FromBigEndian(old(nonce[..])) + 1) % Pow256(nonce.Length)
  {
    hide FromBigEndian, Pow256;
    var n := nonce.Length;
    ghost var was := nonce[..];
    var i := n;
    while i > 0
      invariant 0 <= i <= n
      invariant was == nonce[..i] + Fill(n - i, 255)
      invariant nonce[..] == nonce[..i] + Fill(n - i, 0)
    {
      i := i - 1;
      var b: nat := nonce[i];
      assert was[i] == b;
      assert was == was[..i] + [b] + Fill(n - i - 1, 255);
      nonce[i] := (b + 1) % 256;
      if b < 255 {
        assert nonce[..] == was[..i] + [b + 1] + Fill(n - i - 1, 0);
        Carried(was[..i], b, n - i - 1);
        FromBigEndianBound(nonce[..]);
        BelowModulus(FromBigEndian(nonce[..]), Pow256(n));
        return;
      }
      assert nonce[..i] == was[..i];
      assert [b] + Fill(n - i - 1, 255) == Fill(n - i, 255);
      assert [0] + Fill(n - i - 1, 0) == Fill(n - i, 0);
    }
    assert was == Fill(n, 255) && nonce[..] == Fill(n, 0);
    FillValues(n);
    WholeModulus(Pow256(n));
  }

  // ----- the search -----

  /** The nonce that the walk reaches after `n` steps from zero. */
  function NonceAt(n: nat): Nonce {
    BigEndian(n, POW_NONCE_LENGTH)
  }

  predicate Wins(argon: Argon, salt: Octets, bits: nat, n: nat) {
    TagSatisfies(argon(NonceAt(n), salt), bits)
  }

  /** The first winning nonce from `n` on, up to and including `limit`. */
  function Search(argon: Argon, salt: Octets, bits: nat, n: nat, limit: nat): Option<Nonce>
    decreases limit + 1 - n
  {
    if n > limit then None
    else if Wins(argon, salt, bits, n) then Some(NonceAt(n))
    else Search(argon, salt, bits, n + 1, limit)
  }

  /** The walk finds the smallest winning nonce, and gives up only when there is none. */
  lemma {:induction false} SearchSmallest(argon: Argon, salt: Octets, bits: nat, n: nat, limit: nat)
    ensures match Search(argon, salt, bits, n, limit)
            case None => forall k :: n <= k <= limit ==> !Wins(argon, salt, bits, k)
            case Some(nonce) =>
              exists k :: n <= k <= limit && nonce == NonceAt(k) && Wins(argon, salt, bits, k)
                          && forall j :: n <= j < k ==> !Wins(argon, salt, bits, j)
    decreases limit + 1 - n
  {
    if n <= limit && !Wins(argon, salt, bits, n) {
      SearchSmallest(argon, salt, bits, n + 1, limit);
    }
  }

  datatype SolveError = SaltRefused(error: CborError) | Exhausted

  function Solve(sha: Cid.Hash, argon: Argon, record: seq<Entry>, bits: nat, limit: u64): Result<Nonce, SolveError> {
    match Salt(sha, record)
    case Err(e) => Err(SaltRefused(e))
    case Ok(salt) =>
      match Search(argon, salt, bits, 1, limit)
      case None => Err(Exhausted)
      case Some(nonce) => Ok(nonce)
  }

  method SolveNonce(sha: Cid.Hash, argon: Argon, record: seq<Entry>, bits: nat, limit: u64)
    returns (r: Result<Nonce, SolveError>)
    ensures r == Solve(sha, argon, record, bits, limit)
  {
    hide FromBigEndian, BigEndian, Search, TagSatisfies, Salt, Pow256;
    var salt := Salt(sha, record);
    if salt.Err? {
      return Err(SaltRefused(salt.error));
    }
    var nonce := new byte[POW_NONCE_LENGTH](_ => 0);
    assert nonce[..] == Fill(POW_NONCE_LENGTH, 0);
    FillValues(POW_NONCE_LENGTH);
    NonceSpace();
    for i := 0 to limit
      invariant fresh(nonce) && FromBigEndian(nonce[..]) == i
      invariant Search(argon, salt.value, bits, 1, limit) == Search(argon, salt.value, bits, i + 1, limit)
    {
      SearchStep(argon, salt.value, bits, i + 1, limit);
      BelowModulus(i + 1, Pow256(POW_NONCE_LENGTH));
      IncrementNonce(nonce);
      FromBigEndianInverse(nonce[..]);
      var satisfied := CheckTag(argon(nonce[..], salt.value), bits);
      if satisfied {
        return Ok(nonce[..]);
      }
    }
    SearchStep(argon, salt.value, bits, limit + 1, limit);
    r := Err(Exhausted);
  }

  lemma {:induction false} SearchStep(argon: Argon, salt: Octets, bits: nat, n: nat, limit: nat)
    ensures Search(argon, salt, bits, n, limit) ==
              if n > limit then None
              else if Wins(argon, salt, bits, n) then Some(NonceAt(n))
              else Search(argon, salt, bits, n + 1, limit)
  {
  }

  /** A search of any 64-bit length stays within the nonce space. */
  lemma {:induction false} NonceSpace()
    ensures Pow256(POW_NONCE_LENGTH) > U64_LIMIT
  {
    Pow256Values(8);
    assert Pow256(9) == 256 * Pow256(8);
    assert Pow256(12) >= Pow256(9) by {
      assert Pow256(10) == 256 * Pow256(9);
      assert Pow256(11) == 256 * Pow256(10);
    }
    assert Pow256(13) == 256 * Pow256(12);
    assert Pow256(14) == 256 * Pow256(13);
    assert Pow256(15) == 256 * Pow256(14);
  }
}
