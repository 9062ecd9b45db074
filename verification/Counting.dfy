/** Small facts about numbers and finite sets. */
module Counting {

  /** The number of values of a 32-bit word. */
  const WORD := 0x1_0000_0000

  function Min(a: int, b: int): int { if a < b then a else b }

  lemma SubsetSize<T>(a: set<T>, b: set<T>)
    requires a <= b
    ensures |a| <= |b|
  {
    assert |b| == |a| + |b - a|;
  }
}
