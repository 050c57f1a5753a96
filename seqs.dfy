/** Order-keeping selection from a list, used by the list operations of the
    engine that drop entries and keep the rest in order. */
module Seqs {
  /** s is w with some entries left out, the rest in their order. */
  predicate IsSubsequenceOf<T(==)>(s: seq<T>, w: seq<T>)
    decreases |w|
  {
    if s == [] then true
    else if w == [] then false
    else if s[0] == w[0] then IsSubsequenceOf(s[1..], w[1..])
    else IsSubsequenceOf(s, w[1..])
  }

  /** A longer list keeps every subsequence. */
  lemma {:induction false} SubsequenceCons<T>(s: seq<T>, x: T, w: seq<T>)
    requires IsSubsequenceOf(s, w)
    ensures IsSubsequenceOf(s, [x] + w)
    decreases |w|, 1
  {
    assert ([x] + w)[1..] == w;
    if s != [] && s[0] == x {
      SubsequenceDrop(s, w);
    }
  }

  /** Leaving out the first entry keeps a subsequence. */
  lemma {:induction false} SubsequenceDrop<T>(s: seq<T>, w: seq<T>)
    requires s != [] && IsSubsequenceOf(s, w)
    ensures IsSubsequenceOf(s[1..], w)
    decreases |w|, 0
  {
    assert w == [w[0]] + w[1..];
    if s[0] == w[0] {
      SubsequenceCons(s[1..], w[0], w[1..]);
    } else {
      SubsequenceDrop(s, w[1..]);
      SubsequenceCons(s[1..], w[0], w[1..]);
    }
  }

  /** Every entry of a subsequence is an entry of the list. */
  lemma {:induction false} SubsequenceMembers<T>(s: seq<T>, w: seq<T>)
    requires IsSubsequenceOf(s, w)
    ensures forall x :: x in s ==> x in w
    decreases |w|
  {
    if s != [] && w != [] {
      if s[0] == w[0] {
        SubsequenceMembers(s[1..], w[1..]);
        forall x | x in s ensures x in w {
          if x != s[0] {
            assert x in s[1..] && x in w[1..];
          }
        }
      } else {
        SubsequenceMembers(s, w[1..]);
        forall x | x in s ensures x in w {
          assert x in w[1..];
        }
      }
    }
  }

  /** Every list is a subsequence of itself. */
  lemma {:induction false} SubsequenceRefl<T>(s: seq<T>)
    ensures IsSubsequenceOf(s, s)
    decreases |s|
  {
    if s != [] {
      SubsequenceRefl(s[1..]);
    }
  }
}
