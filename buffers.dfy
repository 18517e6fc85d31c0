/**
  The heap buffers of the lab: the `LeakBuffer` object allocated at start-up,
  and an `Option` for "which slot, if any, a helper stores to".
 */
module Buffers {

  datatype Option<T> = None | Some(value: T)

  /** A buffer of `n` ints allocated on construction. */
  class LeakBuffer {
    var n: int
    var data: array<int>

    predicate Valid()
      reads this
    {
      n == data.Length
    }

    constructor (n: nat)
      ensures Valid() && this.n == n && fresh(data)
    {
      this.n := n;
      data := new int[n];
    }

    /** Stores 7 in the first slot, and only when the buffer has one. */
    method Touch()
      requires Valid()
      modifies data
      ensures n > 0 ==> data[..] == old(data[..])[0 := 7]
      ensures n <= 0 ==> data[..] == old(data[..])
    {
      if n > 0 {
        data[0] := 7;
      }
    }
  }
}
