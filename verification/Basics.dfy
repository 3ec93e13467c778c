/** Small vocabulary shared by every module. */
module Basics {

  type Byte = b: nat | b < 256

  datatype Option<+T> = None | Some(value: T)

  /** The first of two answers that is one. */
  function OrElse<T>(a: Option<T>, b: Option<T>): Option<T> {
    if a.Some? then a else b
  }

  function Min(a: int, b: int): int {
    if a < b then a else b
  }

  function Max(a: int, b: int): int {
    if a < b then b else a
  }

  /** The numbers below n. */
  function Numbers(n: nat): (r: set<nat>)
    ensures forall x: nat :: x in r <==> x < n
  {
    if n == 0 then {} else Numbers(n - 1) + {n - 1}
  }

  /** The index of a pair of bytes in the filter of a program: the first is the low byte. */
  function PairIndex(first: Byte, second: Byte): nat {
    first as nat + 256 * second as nat
  }
}
