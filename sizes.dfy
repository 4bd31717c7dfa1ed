/**
 * The output sizes: the default list the converter falls back on and the
 * range check the command line applies before anything else runs.
 */
module Sizes {
  import opened Wrappers

  const DefaultSizeList: seq<int> := [1024, 256, 128]
  const MinSize := 1
  const MaxSize := 4096

  /** The constructor's fallback: a missing or empty list becomes the default. */
  function DefaultSizes(sizes: Option<seq<int>>): (r: seq<int>)
    ensures |r| > 0
    ensures sizes.Some? && sizes.value != [] ==> r == sizes.value
    ensures sizes.None? || sizes.value == [] ==> r == DefaultSizeList
  {
    match sizes
    case None => DefaultSizeList
    case Some(s) => if s == [] then DefaultSizeList else s
  }

  predicate InRange(size: int) {
    MinSize <= size <= MaxSize
  }

  /** The first size the command line rejects, as an index into `sizes`,
      or None when every size lies in [1, 4096]. */
  method CheckSizes(sizes: seq<int>) returns (bad: Option<nat>)
    ensures bad.None? <==> forall i :: 0 <= i < |sizes| ==> InRange(sizes[i])
    ensures bad.Some? ==>
      && bad.value < |sizes|
      && !InRange(sizes[bad.value])
      && forall i :: 0 <= i < bad.value ==> InRange(sizes[i])
  {
    var k := 0;
    while k < |sizes|
      invariant 0 <= k <= |sizes|
      invariant forall i :: 0 <= i < k ==> InRange(sizes[i])
    {
      var size := sizes[k];
      if size < 1 || size > 4096 {
        return Some(k);
      }
      k := k + 1;
    }
    return None;
  }

  /** The default list passes the range check. */
  lemma DefaultSizesInRange()
    ensures forall i :: 0 <= i < |DefaultSizeList| ==> InRange(DefaultSizeList[i])
  {
  }
}
