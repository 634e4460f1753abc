/** The order of strings, by code units, and binary search in a sorted list of them. */
module TextOrder {
  import opened Bisect

  predicate Less(a: string, b: string) {
    if a == [] then b != []
    else b != [] && (a[0] < b[0] || (a[0] == b[0] && Less(a[1..], b[1..])))
  }

  lemma {:induction false} LessTotal(a: string, b: string)
    ensures a == b || Less(a, b) || Less(b, a)
    ensures !(Less(a, b) && Less(b, a)) && !Less(a, a)
  {
    if a != [] && b != [] {
      LessTotal(a[1..], b[1..]);
      assert a[0] == b[0] && a[1..] == b[1..] ==> a == b by {
        assert a == [a[0]] + a[1..] && b == [b[0]] + b[1..];
      }
    }
    if a != [] {
      LessTotal(a[1..], a[1..]);
    }
  }

  lemma {:induction false} LessTransitive(a: string, b: string, c: string)
    requires Less(a, b) && !Less(c, b)
    ensures Less(a, c)
  {
    if a != [] && c != [] && a[0] == b[0] == c[0] {
      LessTransitive(a[1..], b[1..], c[1..]);
    }
  }

  /** No element is less than one before it. */
  ghost predicate SortedText(s: seq<string>) {
    forall a, b :: 0 <= a < b < |s| ==> !Less(s[b], s[a])
  }

  /** The position of the first element that is not less than `x`, by binary search. */
  function LowerBound(s: seq<string>, x: string): (pos: nat)
    ensures pos <= |s|
  {
    PartitionPoint((k: nat) => k < |s| && Less(s[k], x), 0, |s|)
  }

  lemma {:induction false} LowerBoundPartitions(s: seq<string>, x: string)
    requires SortedText(s)
    ensures forall k :: 0 <= k < LowerBound(s, x) ==> Less(s[k], x)
    ensures forall k :: LowerBound(s, x) <= k < |s| ==> !Less(s[k], x)
  {
    var test := (k: nat) => k < |s| && Less(s[k], x);
    forall a: nat, b: nat | 0 <= a < b < |s| && test(b) ensures test(a) {
      if !Less(s[a], x) {
        LessTransitive(s[b], x, s[a]);
      }
    }
    FindsPartition(test, 0, |s|);
    forall k | 0 <= k < LowerBound(s, x) ensures Less(s[k], x) {
      assert test(k);
    }
    forall k | LowerBound(s, x) <= k < |s| ensures !Less(s[k], x) {
      assert !test(k);
    }
  }

  /** The element is missing where it would have to be. */
  predicate Missing(s: seq<string>, x: string) {
    var pos := LowerBound(s, x);
    pos == |s| || s[pos] != x
  }

  /** On a sorted list that test is non-membership. */
  lemma {:induction false} MissingIffAbsent(s: seq<string>, x: string)
    requires SortedText(s)
    ensures Missing(s, x) <==> x !in s
  {
    var pos := LowerBound(s, x);
    LowerBoundPartitions(s, x);
    if x in s {
      var k :| 0 <= k < |s| && s[k] == x;
      LessTotal(x, x);
      LessTotal(s[pos], x);
      assert pos <= k;
      if pos < k {
        assert !Less(s[k], s[pos]);
      }
    }
  }

  /** A text is less than another if it is the beginning of it, or has the smaller character at the
      first place at which they differ. */
  lemma {:induction false} LessMeaning(a: string, b: string, n: nat)
    requires n <= |a| && n <= |b| && a[..n] == b[..n]
    requires n < |a| && n < |b| ==> a[n] != b[n]
    ensures Less(a, b) <==> n < |b| && (n == |a| || a[n] < b[n])
    decreases n
  {
    if n != 0 {
      assert a[..n][0] == a[0] && b[..n][0] == b[0];
      assert a[1..][..n - 1] == a[..n][1..] && b[1..][..n - 1] == b[..n][1..];
      LessMeaning(a[1..], b[1..], n - 1);
    }
  }
}
