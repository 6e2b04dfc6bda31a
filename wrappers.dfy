/** Failure-carrying datatypes shared by every module of the model. */
module Wrappers {

  /** Rust's `Option` and Python's "value or nothing". */
  datatype Option<+T> = None | Some(value: T)

  /** Rust's `Result`: a value, or an error the code returns to its caller. */
  datatype Result<+T, +E> = Ok(value: T) | Err(error: E)

  /** The outcome of running code that can abort instead of returning:
      a Rust panic (failed index, `unwrap`, `assert_eq!`, `unreachable!`)
      or a Python exception. `Done` carries what the code returned. */
  datatype Run<+T> = Done(value: T) | Abort(reason: string)
}

/** Fixed-width machine integers used by the sources. */
module Ints {

  type byte = x: int | 0 <= x < 0x100
  type u16 = x: int | 0 <= x < 0x1_0000
  type u32 = x: int | 0 <= x < 0x1_0000_0000

  /** Rust's `x as u16` on a non-negative integer: keep the low 16 bits. */
  function AsU16(x: nat): (r: u16)
    ensures x < 0x1_0000 ==> r == x
    ensures (r - x) % 0x1_0000 == 0
  {
    x % 0x1_0000
  }
}
