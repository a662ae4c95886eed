/** What several modules share. */
module Basics {
  datatype Option<+T> = None | Some(value: T)

  /** CLUSTER_SLOTS. */
  const SLOTS: nat := 16384

  const TWO_31: int := 0x8000_0000
  const TWO_32: int := 0x1_0000_0000
  const TWO_63: int := 0x8000_0000_0000_0000
  const TWO_64: int := 0x1_0000_0000_0000_0000

  predicate IsI64(x: int) { -TWO_63 <= x < TWO_63 }

  /** Signed 64-bit arithmetic, two's complement wrap-around assumed. */
  function ToI64(x: int): int {
    var u := x % TWO_64;
    if u >= TWO_63 then u - TWO_64 else u
  }

  lemma {:induction false} SubsetSize<T>(a: set<T>, b: set<T>)
    requires a <= b
    ensures |a| <= |b|
    decreases |a|
  {
    if a != {} {
      var x :| x in a;
      SubsetSize(a - {x}, b - {x});
    }
  }
}
