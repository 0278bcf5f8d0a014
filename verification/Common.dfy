/** What several modules share: optional values, bytes, the range of a 64-bit counter. */
module Common {
  datatype Option<+T> = None | Some(value: T)

  /** Where a sequence of steps leads: nowhere, if one of them was not enabled. */
  datatype RunResult<+S> = Blocked | Reached(state: S)

  type byte = x: int | 0 <= x < 256

  type Bytes = seq<byte>

  const U64_MOD: int := 0x1_0000_0000_0000_0000

  type u64 = x: int | 0 <= x < 0x1_0000_0000_0000_0000

  lemma {:induction false} SubsetSize<T>(a: set<T>, b: set<T>)
    requires a <= b
    ensures |a| <= |b|
    decreases |a|
  {
    if a != {} {
      var x :| x in a;
      SubsetSize(a - {x}, b - {x});
    }
  }
}
