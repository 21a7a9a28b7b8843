/** Facts about sequences and multisets shared by the planner, the grouping and the page helpers. */
module Seqs {

  lemma MultisetCancel<T>(a: multiset<T>, b: multiset<T>, c: multiset<T>)
    requires a + c == b + c
    ensures a == b
  {
    assert forall y :: a[y] == (a + c)[y] - c[y];
  }

  /** Splitting off the head of the left operand of a concatenation. */
  lemma ConsAppend<T>(x: seq<T>, z: seq<T>)
    requires x != []
    ensures (x + z)[0] == x[0] && (x + z)[1..] == x[1..] + z
    ensures [x[0]] + (x[1..] + z) == x + z
  {
  }

  /** `a` can be obtained from `b` by deleting elements, without reordering the rest. */
  predicate Subseq<T(==)>(a: seq<T>, b: seq<T>)
    decreases |b|
  {
    a == [] || (b != [] && ((a[0] == b[0] && Subseq(a[1..], b[1..])) || Subseq(a, b[1..])))
  }

  lemma {:induction false} SubseqMembers<T>(a: seq<T>, b: seq<T>, x: T)
    requires Subseq(a, b) && x in a
    ensures x in b
    decreases |b|
  {
    if a[0] == b[0] && Subseq(a[1..], b[1..]) {
      if x != a[0] {
        SubseqMembers(a[1..], b[1..], x);
      }
    } else {
      SubseqMembers(a, b[1..], x);
    }
  }

  /** No value occurs twice. */
  ghost predicate Distinct<T>(s: seq<T>) {
    forall i, j :: 0 <= i < j < |s| ==> s[i] != s[j]
  }

  /** A multiset count of at most one per value, read off a sequence without repeats, and back. */
  lemma {:induction false} DistinctOnce<T>(s: seq<T>, y: T)
    requires Distinct(s)
    ensures multiset(s)[y] <= 1
  {
    if s != [] {
      assert s == [s[0]] + s[1..];
      assert s[0] !in s[1..];
      DistinctOnce(s[1..], y);
    }
  }

  lemma {:induction false} OnceDistinct<T>(s: seq<T>)
    requires forall y :: multiset(s)[y] <= 1
    ensures Distinct(s)
  {
    if s != [] {
      assert s == [s[0]] + s[1..];
      assert multiset(s)[s[0]] == 1 + multiset(s[1..])[s[0]];
      assert multiset(s[1..])[s[0]] == 0;
      forall y
        ensures multiset(s[1..])[y] <= 1
      {
        assert multiset(s)[y] == multiset([s[0]])[y] + multiset(s[1..])[y];
      }
      OnceDistinct(s[1..]);
      forall i, j | 0 <= i < j < |s|
        ensures s[i] != s[j]
      {
        if i > 0 {
          assert s[i] == s[1..][i - 1] && s[j] == s[1..][j - 1];
        } else {
          assert s[j] == s[1..][j - 1] && s[j] in s[1..];
        }
      }
    }
  }
}
