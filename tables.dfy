/** The distance table the solver is built from: a dictionary keyed by pairs of city indices. */
module Tables {
  import opened Sequences

  /** Distance dictionary. The reporting script fills it with keys `(i, j)`, `i < j`. */
  type Table = map<(int, int), real>

  /** The key an edge is looked up under: the two cities in ascending order. */
  function Key(a: int, b: int): (k: (int, int))
    ensures k.0 <= k.1
    ensures (k.0 == a && k.1 == b) || (k.0 == b && k.1 == a)
  {
    if a <= b then (a, b) else (b, a)
  }

  /** Both orientations of an edge are looked up under the same key. */
  lemma KeySymmetric(a: int, b: int)
    ensures Key(a, b) == Key(b, a)
  {
  }

  /** The distinct first components of the table's keys. */
  function FirstCities(d: Table): set<int>
  {
    set k | k in d :: k.0
  }

  /** The solver's `n_cities`: how many distinct first components the keys have. */
  function NumCities(d: Table): (n: nat)
    ensures n == 0 <==> d == map[]
  {
    KeyedCities(d);
    |FirstCities(d)|
  }

  /** A table with a key has a first component. */
  lemma KeyedCities(d: Table)
    ensures d != map[] ==> FirstCities(d) != {}
  {
    if d != map[] {
      var k :| k in d;
      assert k.0 in FirstCities(d);
    }
  }

  /** Every pair of distinct cities below `n` has an entry under its sorted key. */
  predicate Complete(d: Table, n: int)
  {
    forall a, b :: 0 <= a < b < n ==> (a, b) in d
  }

  /** The keys the reporting script builds for `m` cities: all `(i, j)` with `0 <= i < j < m`. */
  function PairsBelow(m: nat): set<(int, int)>
  {
    set i, j | 0 <= i < j < m :: (i, j)
  }

  /** A distinct sequence has as many elements as the set of its values. */
  lemma {:induction false} DistinctSetSize(s: seq<int>)
    requires Distinct(s)
    ensures |set x | x in s| == |s|
  {
    if s != [] {
      var init := s[..|s| - 1];
      assert Distinct(init);
      DistinctSetSize(init);
      assert s == init + [s[|s| - 1]];
      assert (set x | x in s) == (set x | x in init) + {s[|s| - 1]};
      assert s[|s| - 1] !in init;
    }
  }

  /**
   * A table built for `m` cities has `m - 1` first components, so the solver tours only the
   * cities `0 .. m - 2`, and the table is complete over them.
   */
  lemma StandardTableCities(d: Table, m: nat)
    requires m >= 1
    requires d.Keys == PairsBelow(m)
    ensures NumCities(d) == m - 1
    ensures Complete(d, m - 1)
    ensures m - 1 !in FirstCities(d)
  {
    var firsts := FirstCities(d);
    var below := Range(0, m - 1);
    forall i | i in below
      ensures i in firsts
    {
      assert (i, i + 1) in PairsBelow(m);
      assert (i, i + 1) in d;
    }
    forall c | c in firsts
      ensures c in below
    {
      var k :| k in d && k.0 == c;
      assert k in PairsBelow(m);
      assert below[c] == c;
    }
    assert firsts == set x | x in below;
    DistinctSetSize(below);
  }
}
