/** Laws of concatenation, as lemmas: calling them keeps reasoning about elements out of proofs that
    are about something else. */
module Seqs {
  lemma {:induction false} Assoc<T>(a: seq<T>, b: seq<T>, c: seq<T>)
    ensures a + b + c == a + (b + c)
  {
  }

  /** The next element of a list that is worked through from the front. */
  lemma {:induction false} NextOf<T>(s: seq<T>, i: nat)
    requires i < |s|
    ensures s[i..] != [] && s[i..][0] == s[i] && s[i..][1..] == s[i + 1..]
    ensures s[..i + 1] == s[..i] + [s[i]]
  {
  }

  /** One stream cut in two places. */
  lemma {:induction false} CutTwice<T>(a: seq<T>, b: seq<T>, x: seq<T>, y: seq<T>)
    requires a + b == x + y && |x| <= |a|
    ensures a == x + a[|x|..] && a[|x|..] + b == y
  {
    assert (a + b)[..|x|] == a[..|x|] && (x + y)[..|x|] == x;
    assert (a + b)[|x|..] == a[|x|..] + b && (x + y)[|x|..] == y;
  }

  lemma {:induction false} NoneRight<T>(a: seq<T>)
    ensures a + [] == a
  {
  }

  lemma {:induction false} NoneLeft<T>(a: seq<T>)
    ensures [] + a == a
  {
  }
}
