/** Binary search as `std::lower_bound` and `std::upper_bound` do it: halve a range of positions
    on which a test is first true and then false. */
module Bisect {
  /** The search over the `len` positions from `first`. */
  function PartitionPoint(test: nat -> bool, first: nat, len: nat): (pos: nat)
    ensures first <= pos <= first + len
    decreases len
  {
    if len == 0 then first
    else
      var half := len / 2;
      if test(first + half) then PartitionPoint(test, first + half + 1, len - half - 1)
      else PartitionPoint(test, first, half)
  }

  /** Once false, the test stays false. */
  ghost predicate Partitioned(test: nat -> bool, first: nat, len: nat) {
    forall a: nat, b: nat :: first <= a < b < first + len && test(b) ==> test(a)
  }

  /** On a partitioned range the search finds where the test turns false. */
  lemma {:induction false} FindsPartition(test: nat -> bool, first: nat, len: nat)
    requires Partitioned(test, first, len)
    ensures var pos := PartitionPoint(test, first, len);
            && (forall k: nat :: first <= k < pos ==> test(k))
            && (forall k: nat :: pos <= k < first + len ==> !test(k))
    decreases len
  {
    if len != 0 {
      var half := len / 2;
      var mid := first + half;
      if test(mid) {
        TrueBelow(test, first, len, mid);
        FindsPartition(test, mid + 1, len - half - 1);
      } else {
        FalseAbove(test, first, len, mid);
        FindsPartition(test, first, half);
      }
    }
  }

  lemma {:induction false} TrueBelow(test: nat -> bool, first: nat, len: nat, mid: nat)
    requires Partitioned(test, first, len) && first <= mid < first + len && test(mid)
    ensures forall k: nat :: first <= k <= mid ==> test(k)
    ensures Partitioned(test, mid + 1, first + len - mid - 1)
  {
  }

  lemma {:induction false} FalseAbove(test: nat -> bool, first: nat, len: nat, mid: nat)
    requires Partitioned(test, first, len) && first <= mid < first + len && !test(mid)
    ensures forall k: nat :: mid <= k < first + len ==> !test(k)
    ensures Partitioned(test, first, mid - first)
  {
  }
}
