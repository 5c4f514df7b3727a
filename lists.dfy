/** Searches over Kotlin lists shared by the model. */
module Lists {
  /**
   * The index of the first element satisfying `p`, or -1 when none does:
   * Kotlin's `indexOfFirst`, and the position `find` and `first` stop at.
   */
  function FirstIndex<T>(s: seq<T>, p: T -> bool): (i: int)
    ensures -1 <= i < |s|
    ensures 0 <= i ==> p(s[i])
    ensures forall j | 0 <= j < |s| && (i < 0 || j < i) :: !p(s[j])
  {
    if s == [] then -1
    else if p(s[0]) then 0
    else
      var k := FirstIndex(s[1..], p);
      if k < 0 then -1 else k + 1
  }
}
