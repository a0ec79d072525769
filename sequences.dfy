/** Small facts about sequences shared by the tour and permutation modules. */
module Sequences {

  /** No value occurs twice in `s`. */
  predicate Distinct<T(==)>(s: seq<T>)
  {
    forall i, j :: 0 <= i < j < |s| ==> s[i] != s[j]
  }

  /** Python's `range(lo, hi)`: the integers from `lo` up to, not including, `hi`. */
  function Range(lo: int, hi: int): (r: seq<int>)
    ensures |r| == if lo <= hi then hi - lo else 0
    ensures forall i :: 0 <= i < |r| ==> r[i] == lo + i
  {
    seq(if lo <= hi then hi - lo else 0, i => lo + i)
  }

  /** Every value of a distinct sequence occurs in it at most once. */
  lemma {:induction false} DistinctCounts<T>(s: seq<T>)
    requires Distinct(s)
    ensures forall x :: multiset(s)[x] <= 1
  {
    if s != [] {
      var last := s[|s| - 1];
      var init := s[..|s| - 1];
      assert s == init + [last];
      assert Distinct(init);
      DistinctCounts(init);
      assert last !in init;
      assert multiset(init)[last] == 0;
    }
  }

  /** A sequence in which no value occurs twice is distinct. */
  lemma CountsDistinct<T>(s: seq<T>)
    requires forall x :: multiset(s)[x] <= 1
    ensures Distinct(s)
  {
    forall i, j | 0 <= i < j < |s|
      ensures s[i] != s[j]
    {
      var parts := s[..i] + [s[i]] + s[i + 1..j] + [s[j]] + s[j + 1..];
      assert s == parts;
      assert multiset(s)[s[i]] >= multiset{s[i], s[j]}[s[i]];
    }
  }

  /** Rearranging a distinct sequence gives a distinct sequence. */
  lemma RearrangedDistinct<T>(s: seq<T>, u: seq<T>)
    requires Distinct(u) && multiset(s) == multiset(u)
    ensures Distinct(s)
  {
    DistinctCounts(u);
    CountsDistinct(s);
  }

  lemma MultisetCancel<T>(a: multiset<T>, b: multiset<T>, c: multiset<T>)
    requires a + c == b + c
    ensures a == b
  {
    forall x
      ensures a[x] == b[x]
    {
      assert (a + c)[x] == (b + c)[x];
    }
  }

  /** Concatenation is associative. */
  lemma AppendAssociative<T>(a: seq<T>, b: seq<T>, c: seq<T>)
    ensures (a + b) + c == a + (b + c)
  {
  }

  /** The integers of a range are distinct. */
  lemma RangeDistinct(lo: int, hi: int)
    ensures Distinct(Range(lo, hi))
  {
  }

  /** The sequence read back to front. */
  function Reverse<T>(s: seq<T>): (r: seq<T>)
    ensures |r| == |s|
    ensures forall i :: 0 <= i < |s| ==> r[i] == s[|s| - 1 - i]
  {
    seq(|s|, i requires 0 <= i < |s| => s[|s| - 1 - i])
  }

  /** The sequence started from position `k` and wrapped around: a cyclic shift. */
  function Rotate<T>(s: seq<T>, k: nat): (r: seq<T>)
    requires k <= |s|
    ensures |r| == |s|
  {
    s[k..] + s[..k]
  }
}
