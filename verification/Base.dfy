/** Types shared by every module: machine integers, byte strings and the result datatypes
    standing for the source's `Option`, `Result<T, E>` and `Result<(), E>`. */
module Base {

  /** A machine octet, kept as an integer so that shifts and masks are written as arithmetic. */
  type byte = x: int | 0 <= x < 0x100

  type Octets = seq<byte>

  const U64_LIMIT: int := 0x1_0000_0000_0000_0000

  type u64 = x: int | 0 <= x < U64_LIMIT

  const U32_LIMIT: int := 0x1_0000_0000

  type u32 = x: int | 0 <= x < U32_LIMIT

  datatype Option<+T> = None | Some(value: T)

  datatype Result<+T, +E> = Ok(value: T) | Err(error: E) {
    predicate IsFailure() {
      Err?
    }

    function PropagateFailure<U>(): Result<U, E>
      requires Err?
    {
      Err(error)
    }

    function Extract(): T
      requires Ok?
    {
      value
    }
  }

  datatype Outcome<+E> = Pass | Fail(error: E) {
    predicate IsFailure() {
      Fail?
    }

    function PropagateFailure<U>(): Result<U, E>
      requires Fail?
    {
      Err(error)
    }
  }

  /** A condition that must hold, or else this refusal. */
  function Need<E>(condition: bool, error: E): (r: Outcome<E>)
    ensures r.Pass? <==> condition
  {
    if condition then Pass else Fail(error)
  }

  function Min(a: int, b: int): int {
    if a <= b then a else b
  }

  function Max(a: int, b: int): int {
    if a <= b then b else a
  }

  /** The octets of an ASCII literal. */
  function Ascii(s: string): (r: Octets)
    requires forall i :: 0 <= i < |s| ==> s[i] < 128 as char
    ensures |r| == |s|
    ensures forall i :: 0 <= i < |s| ==> r[i] == s[i] as int && r[i] < 128
  {
    seq(|s|, i requires 0 <= i < |s| => s[i] as int)
  }
}
