/** Unsigned LEB128, as the content identifiers and the protobuf messages use it: one writer and
    two readers, which differ only in how they report a refusal. */
module Varint {
  import opened Arith
  import opened Base

  /** Seven bits at a time, least significant first; the high bit says more octets follow. */
  function Write(n: nat): (r: Octets)
    ensures |r| >= 1
  {
    if n < 128 then [n] else [n % 128 + 128] + Write(n / 128)
  }

  datatype VarintError = Truncated | TooLong

  datatype Number = Number(value: u64, rest: Octets)

  /** Reading on from an accumulated value. `value |= (byte & 0x7f) << shift` is an addition here,
      because the bits below `shift` are the only ones `value` has; the shift itself drops the bits
      beyond 64. */
  function ReadFrom(b: Octets, value: u64, shift: nat): (r: Result<Number, VarintError>)
    requires shift <= 63 && value < Pow2(shift)
    ensures r.Ok? ==> |r.value.rest| < |b|
    decreases |b|
  {
    if |b| == 0 then Err(Truncated)
    else
      var added := value + ShiftLeft(b[0] % 128, shift);
      ShiftedSum(value, b[0] % 128, shift);
      if b[0] < 128 then Ok(Number(added, b[1..]))
      else if shift + 7 > 63 then Err(TooLong)
      else ReadFrom(b[1..], added, shift + 7)
  }

  /** Rust's `<<` on a 64-bit value: bits shifted out are lost. */
  function ShiftLeft(x: nat, shift: nat): nat {
    x * Pow2(shift) % U64_LIMIT
  }

  lemma {:induction false} ShiftedSum(value: nat, x: nat, shift: nat)
    requires shift <= 63 && value < Pow2(shift) && x < 128
    ensures value + ShiftLeft(x, shift) < U64_LIMIT
    ensures shift + 7 <= 63 ==> ShiftLeft(x, shift) == x * Pow2(shift) && value + x * Pow2(shift) < Pow2(shift + 7)
  {
    assert U64_LIMIT == Pow2(64 - shift) * Pow2(shift) by {
      Pow2Values();
      Pow2Sum(64 - shift, shift);
    }
    LeavesRoom(value, x, Pow2(shift), Pow2(64 - shift));
    if shift + 7 <= 63 {
      SmallShift(value, x, shift);
    }
  }

  lemma {:induction false} LeavesRoom(value: nat, x: nat, p: nat, m: nat)
    requires value < p && m > 0 && m * p == U64_LIMIT
    ensures value + x * p % U64_LIMIT < U64_LIMIT
  {
    ScaledRemainder(x, p, m);
  }

  lemma {:induction false} SmallShift(value: nat, x: nat, shift: nat)
    requires shift + 7 <= 63 && value < Pow2(shift) && x < 128
    ensures ShiftLeft(x, shift) == x * Pow2(shift) && value + x * Pow2(shift) < Pow2(shift + 7) < U64_LIMIT
  {
    Pow2Values();
    Pow2Sum(shift, 7);
    Pow2Below(shift + 7, 64);
    SmallProduct(value, x, Pow2(shift));
  }

  lemma {:induction false} SmallProduct(value: nat, x: nat, p: nat)
    requires value < p && x < 128 && p * 128 < U64_LIMIT
    ensures x * p % U64_LIMIT == x * p && value + x * p < p * 128
  {
    BelowProduct(x, p, 128);
  }

  function Read(b: Octets): Result<Number, VarintError> {
    ReadFrom(b, 0, 0)
  }

  /** A value at the place its octet stands for. */
  function Scaled(n: nat, shift: nat): nat {
    n * Pow2(shift)
  }

  lemma {:induction false} ReadFromBack(n: nat, value: u64, shift: nat, rest: Octets)
    requires shift <= 63 && shift % 7 == 0 && value < Pow2(shift) && value + Scaled(n, shift) < U64_LIMIT
    ensures ReadFrom(Write(n) + rest, value, shift) == Ok(Number(value + Scaled(n, shift), rest))
    decreases n
  {
    var b := Write(n) + rest;
    if n < 128 {
      LastOctet(n, value, shift, b);
      assert b[1..] == rest;
    } else {
      ManyOctetsFit(n, shift);
      ContinuedOctet(n, value, shift, b);
      assert b[1..] == Write(n / 128) + rest;
      Accumulate(n, value, shift);
      SmallShift(value, n % 128, shift);
      ReadFromBack(n / 128, value + Scaled(n % 128, shift), shift + 7, rest);
    }
  }

  lemma {:induction false} LastOctet(n: nat, value: u64, shift: nat, b: Octets)
    requires shift <= 63 && value < Pow2(shift) && value + Scaled(n, shift) < U64_LIMIT
    requires n < 128 && |b| > 0 && b[0] == n
    ensures ReadFrom(b, value, shift) == Ok(Number(value + Scaled(n, shift), b[1..]))
  {
    ShiftedSum(value, n, shift);
    KeptWhole(n, shift);
    assert b[0] % 128 == n;
  }

  lemma {:induction false} ContinuedOctet(n: nat, value: u64, shift: nat, b: Octets)
    requires shift + 7 <= 63 && value < Pow2(shift)
    requires |b| > 0 && b[0] == n % 128 + 128
    ensures 0 <= value + Scaled(n % 128, shift) < Pow2(shift + 7) < U64_LIMIT
    ensures ReadFrom(b, value, shift) == ReadFrom(b[1..], value + Scaled(n % 128, shift), shift + 7)
  {
    SmallShift(value, n % 128, shift);
    assert b[0] % 128 == n % 128;
  }

  lemma {:induction false} Accumulate(n: nat, value: nat, shift: nat)
    ensures value + Scaled(n % 128, shift) + Scaled(n / 128, shift + 7) == value + Scaled(n, shift)
  {
    Pow2Sum(shift, 7);
    Pow2Values();
    Regroup(n, Pow2(shift));
  }

  lemma {:induction false} KeptWhole(n: nat, shift: nat)
    requires Scaled(n, shift) < U64_LIMIT
    ensures ShiftLeft(n, shift) == Scaled(n, shift)
  {
  }

  lemma {:induction false} TwoTooMany(n: nat)
    requires n >= 2
    ensures n * Pow2(63) >= U64_LIMIT
  {
    Pow2Values();
    assert Pow2(64) == 2 * Pow2(63);
    MulAtLeast(n - 1, Pow2(63));
    assert n * Pow2(63) == (n - 1) * Pow2(63) + Pow2(63);
  }

  /** Below 2^64 a continued varint never reaches the last shift. */
  lemma {:induction false} ManyOctetsFit(n: nat, shift: nat)
    requires shift <= 63 && shift % 7 == 0 && n >= 128 && n * Pow2(shift) < U64_LIMIT
    ensures shift + 7 <= 63
  {
    if shift == 63 {
      TwoTooMany(n);
    }
  }

  lemma {:induction false} Regroup(n: nat, p: nat)
    ensures (n % 128) * p + (n / 128) * (p * 128) == n * p
  {
    assert n == n % 128 + (n / 128) * 128;
    assert n * p == (n % 128) * p + ((n / 128) * 128) * p;
  }

  /** Every 64-bit value reads back as itself, with exactly its own octets consumed. */
  lemma {:induction false} WriteReadsBack(n: u64, rest: Octets)
    ensures Read(Write(n) + rest) == Ok(Number(n, rest))
  {
    ReadFromBack(n, 0, 0, rest);
  }

  /** A varint read from one octet is that octet. */
  lemma {:induction false} OneOctet(b: Octets)
    requires Read(b).Ok?
    ensures |Read(b).value.rest| == |b| - 1 ==> b == [Read(b).value.value] + Read(b).value.rest
  {
    if b[0] < 128 {
      assert ShiftLeft(b[0], 0) == b[0];
      assert b == [b[0]] + b[1..];
    } else {
      ShiftedSum(0, b[0] % 128, 0);
      assert |ReadFrom(b[1..], ShiftLeft(b[0] % 128, 0), 7).value.rest| < |b[1..]|;
    }
  }

  lemma {:induction false} WriteLength(n: nat, k: nat)
    requires k >= 1 && n < Pow2(7 * k)
    ensures |Write(n)| <= k
    decreases k
  {
    if n >= 128 {
      Pow2Values();
      assert k > 1;
      Pow2Sum(7 * (k - 1), 7);
      assert Pow2(7 * k) == Pow2(7 * (k - 1)) * 128;
      assert n / 128 < Pow2(7 * (k - 1));
      WriteLength(n / 128, k - 1);
    }
  }

  /** Ten octets hold any 64-bit value. */
  lemma {:induction false} WriteShort(n: u64)
    ensures |Write(n)| <= 10
  {
    Pow2Values();
    Pow2Sum(64, 6);
    WriteLength(n, 10);
  }

  /** One octet more than needed: read all the same. */
  lemma {:induction false} OneLonger(n: nat, rest: Octets)
    requires n < 128
    ensures Read([n + 128, 0] + rest) == Ok(Number(n, rest))
  {
    Pow2Values();
    ShiftsNothing(n);
    hide Pow2, ShiftLeft;
    var b, tail: Octets := [n + 128, 0] + rest, [0] + rest;
    assert b[0] == n + 128 && b[1..] == tail && tail[0] == 0 && tail[1..] == rest;
    assert ReadFrom(tail, n, 7) == Ok(Number(n, rest));
  }

  lemma {:induction false} ShiftsNothing(n: nat)
    requires n < 128
    ensures ShiftLeft(n, 0) == n && ShiftLeft(0, 7) == 0
  {
  }

  // ----- the loops -----

  /** Append the varint form of a value. */
  method WriteInto(n: u64, out: Octets) returns (r: Octets)
    ensures r == out + Write(n)
  {
    r := out;
    var remaining: nat := n;
    while true
      invariant r + Write(remaining) == out + Write(n)
      decreases remaining
    {
      var octet := remaining % 128;
      remaining := remaining / 128;
      if remaining != 0 {
        r := r + [octet + 128];
      } else {
        r := r + [octet];
        return;
      }
    }
  }

  /** The reader of the content identifiers: a refusal says why. */
  method ReadAt(bytes: Octets, at: nat) returns (r: Result<u64, VarintError>, next: nat)
    requires at <= |bytes|
    ensures at <= next <= |bytes|
    ensures match Read(bytes[at..])
            case Ok(Number(value, rest)) => r == Ok(value) && rest == bytes[next..]
            case Err(e) => r == Err(e)
  {
    var value: u64, shift: nat := 0, 0;
    next := at;
    while true
      invariant at <= next <= |bytes| && shift <= 63 && value < Pow2(shift) && value < U64_LIMIT
      invariant ReadFrom(bytes[next..], value, shift) == Read(bytes[at..])
      decreases |bytes| - next
    {
      if next >= |bytes| {
        return Err(Truncated), next;
      }
      assert bytes[next..][1..] == bytes[next + 1..];
      var octet := bytes[next];
      next := next + 1;
      ShiftedSum(value, octet % 128, shift);
      value := value + ShiftLeft(octet % 128, shift);
      if octet < 128 {
        return Ok(value), next;
      }
      shift := shift + 7;
      if shift > 63 {
        return Err(TooLong), next;
      }
    }
  }

  /** The reader of the protobuf messages: any refusal is `None`. */
  method ReadField(bytes: Octets, pos: nat) returns (r: Option<u64>, next: nat)
    requires pos <= |bytes|
    ensures pos <= next <= |bytes|
    ensures match Read(bytes[pos..])
            case Ok(Number(value, rest)) => r == Some(value) && rest == bytes[next..]
            case Err(_) => r == None
  {
    var value: u64, shift: nat := 0, 0;
    next := pos;
    while true
      invariant pos <= next <= |bytes| && shift <= 63 && value < Pow2(shift) && value < U64_LIMIT
      invariant ReadFrom(bytes[next..], value, shift) == Read(bytes[pos..])
      decreases |bytes| - next
    {
      if next >= |bytes| {
        return None, next;
      }
      assert bytes[next..][1..] == bytes[next + 1..];
      var octet := bytes[next];
      next := next + 1;
      ShiftedSum(value, octet % 128, shift);
      value := value + ShiftLeft(octet % 128, shift);
      if octet < 128 {
        return Some(value), next;
      }
      shift := shift + 7;
      if shift >= 64 {
        return None, next;
      }
    }
  }
}
