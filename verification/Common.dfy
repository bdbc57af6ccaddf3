/** Arithmetic and counting used throughout. */
module Common {

  /** The number of values of a 32-bit integer. */
  const U32 := 0x1_0000_0000

  /** Subtraction that stops at zero. */
  function SatSub(a: nat, b: nat): nat {
    if a < b then 0 else a - b
  }

  lemma {:induction false} SubsetCount<T>(a: set<T>, b: set<T>)
    requires a <= b
    ensures |a| <= |b|
  {
    if a != {} {
      var x :| x in a;
      SubsetCount(a - {x}, b - {x});
    }
  }
}
