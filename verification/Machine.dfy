/** The value types shared by the models: 64-bit words, bytes, and the two
    failure-compatible results that stand for Rust's `Option` and `Result`. */
module Machine {

  const U64_LIMIT: int := 0x1_0000_0000_0000_0000

  type u64 = x: int | 0 <= x < 0x1_0000_0000_0000_0000
  type byte = x: int | 0 <= x < 256

  datatype Option<+T> = None | Some(value: T) {
    predicate IsFailure() { None? }

    function PropagateFailure<U>(): Option<U>
      requires None?
    { None }

    function Extract(): T
      requires Some?
    { value }
  }

  datatype Result<+T, +E> = Success(value: T) | Failure(error: E) {
    predicate IsFailure() { Failure? }

    function PropagateFailure<U>(): Result<U, E>
      requires Failure?
    { Failure(error) }

    function Extract(): T
      requires Success?
    { value }
  }

  function Min(a: int, b: int): int { if a < b then a else b }

  function Max(a: int, b: int): int { if a > b then a else b }

  /** `u64::checked_add`. */
  function CheckedAdd(a: u64, b: u64): Option<u64> {
    if a + b < U64_LIMIT then Some(a + b) else None
  }

  /** `value & !(alignment - 1)` for a power-of-two alignment. */
  function AlignDown(value: u64, alignment: u64): (r: u64)
    requires alignment > 0
    ensures r <= value < r + alignment
  {
    value - value % alignment
  }

  /** `value.checked_add(alignment - 1)` masked down: the next multiple, or
      `None` when the addition leaves 64 bits. */
  function AlignUp(value: u64, alignment: u64): (r: Option<u64>)
    requires alignment > 0
    ensures r.Some? ==> value <= r.value < value + alignment
  {
    if value + (alignment - 1) < U64_LIMIT
    then Some(AlignDown(value + (alignment - 1), alignment))
    else None
  }
}
