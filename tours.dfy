/**
 * Tours and the destroy-and-repair rewrite: the values at a few chosen positions of a tour
 * are read out and replaced by a rearrangement of themselves.
 */
module Tours {
  import opened Sequences
  import opened Tables
  import opened Hamiltonian

  /** `n` positions holding each of the cities `0 .. n - 1` once, with city 0 in front. */
  predicate IsTour(t: seq<int>, n: nat)
  {
    n >= 1 && |t| == n && t[0] == 0 && multiset(t) == multiset(Range(0, n))
  }

  /** City 0 followed by an ordering of the other cities is a tour. */
  lemma StartTour(order: seq<int>, n: nat)
    requires n >= 1 && multiset(order) == multiset(Range(1, n))
    ensures IsTour([0] + order, n)
  {
    assert Range(0, n) == [0] + Range(1, n);
    assert multiset([0] + order) == multiset([0]) + multiset(order);
    assert |order| == |multiset(order)| == n - 1;
  }

  /** A tour visits distinct cities, all below `n`. */
  lemma TourCities(t: seq<int>, n: nat)
    requires IsTour(t, n)
    ensures Distinct(t)
    ensures forall i :: 0 <= i < |t| ==> 0 <= t[i] < n
  {
    RangeDistinct(0, n);
    RearrangedDistinct(t, Range(0, n));
    forall i | 0 <= i < |t|
      ensures 0 <= t[i] < n
    {
      assert t[i] in multiset(t);
      assert t[i] in Range(0, n);
    }
  }

  /** On a table complete over its `n >= 2` cities, every edge of a tour can be looked up. */
  lemma TourEdgesPresent(t: seq<int>, n: nat, d: Table)
    requires IsTour(t, n) && n >= 2 && Complete(d, n)
    ensures EdgesPresent(t, d)
  {
    TourCities(t, n);
    forall i | 0 <= i < |t|
      ensures Edge(t, i) in d
    {
      var j := Next(n, i);
      assert j != i;
      assert t[i] != t[j];
    }
  }

  /** Neighbourhood positions: distinct, and never the anchor position 0. */
  predicate ValidPicks(picks: seq<int>, n: nat)
  {
    Distinct(picks) && forall i :: 0 <= i < |picks| ==> 1 <= picks[i] < n
  }

  predicate InBounds(picks: seq<int>, len: nat)
  {
    forall i :: 0 <= i < |picks| ==> 0 <= picks[i] < len
  }

  /** `curr_x[neighboors]`: the values at the chosen positions, in the order the positions were drawn. */
  function ReadAt(t: seq<int>, picks: seq<int>): (r: seq<int>)
    requires InBounds(picks, |t|)
    ensures |r| == |picks|
    ensures forall i :: 0 <= i < |picks| ==> r[i] == t[picks[i]]
  {
    seq(|picks|, i requires 0 <= i < |picks| => t[picks[i]])
  }

  /** The tour after `t[picks[i]] = values[i]` for each `i` in turn. */
  function Place(t: seq<int>, picks: seq<int>, values: seq<int>): (r: seq<int>)
    requires |values| == |picks| && InBounds(picks, |t|)
    ensures |r| == |t|
    decreases |picks|
  {
    if picks == [] then t
    else Place(t, picks[..|picks| - 1], values[..|values| - 1])[picks[|picks| - 1] := values[|values| - 1]]
  }

  /** Each chosen position receives its value. */
  lemma {:induction false} PlaceAt(t: seq<int>, picks: seq<int>, values: seq<int>, k: nat)
    requires |values| == |picks| && InBounds(picks, |t|) && Distinct(picks)
    requires k < |picks|
    ensures Place(t, picks, values)[picks[k]] == values[k]
  {
    var m := |picks| - 1;
    if k < m {
      assert Distinct(picks[..m]);
      PlaceAt(t, picks[..m], values[..m], k);
    }
  }

  /** Positions that are not chosen keep their value. */
  lemma {:induction false} PlaceElsewhere(t: seq<int>, picks: seq<int>, values: seq<int>, j: int)
    requires |values| == |picks| && InBounds(picks, |t|)
    requires 0 <= j < |t| && j !in picks
    ensures Place(t, picks, values)[j] == t[j]
  {
    if picks != [] {
      var m := |picks| - 1;
      assert j !in picks[..m];
      PlaceElsewhere(t, picks[..m], values[..m], j);
    }
  }

  /** Reading the chosen positions back gives exactly the values written there. */
  lemma PlaceReadsBack(t: seq<int>, picks: seq<int>, values: seq<int>)
    requires |values| == |picks| && InBounds(picks, |t|) && Distinct(picks)
    ensures ReadAt(Place(t, picks, values), picks) == values
  {
    forall k | 0 <= k < |picks| ensures ReadAt(Place(t, picks, values), picks)[k] == values[k] {
      PlaceAt(t, picks, values, k);
    }
  }

  /** Overwriting one position trades the old value for the new one. */
  lemma UpdateMultiset(s: seq<int>, i: nat, v: int)
    requires i < |s|
    ensures multiset(s[i := v]) + multiset{s[i]} == multiset(s) + multiset{v}
  {
    assert s == s[..i] + [s[i]] + s[i + 1..];
    assert s[i := v] == s[..i] + [v] + s[i + 1..];
  }

  /** Multiset bookkeeping for one more write. */
  lemma TradeStep(x: multiset<int>, y: multiset<int>, rm: multiset<int>, r: multiset<int>,
                  vm: multiset<int>, vs: multiset<int>, t: multiset<int>, old_v: int, v: int)
    requires x + rm == t + vm
    requires y + multiset{old_v} == x + multiset{v}
    requires r == rm + multiset{old_v} && vs == vm + multiset{v}
    ensures y + r == t + vs
  {
    calc {
      y + r;
      y + multiset{old_v} + rm;
      x + multiset{v} + rm;
      t + vm + multiset{v};
      t + vs;
    }
  }

  /** The rewrite trades the values read at the chosen positions for the values written. */
  lemma {:induction false} PlaceMultiset(t: seq<int>, picks: seq<int>, values: seq<int>)
    requires |values| == |picks| && InBounds(picks, |t|) && Distinct(picks)
    ensures multiset(Place(t, picks, values)) + multiset(ReadAt(t, picks)) == multiset(t) + multiset(values)
  {
    if picks != [] {
      var m := |picks| - 1;
      var p, v := picks[m], values[m];
      var prev := Place(t, picks[..m], values[..m]);
      assert Place(t, picks, values) == prev[p := v];
      assert Distinct(picks[..m]);
      PlaceMultiset(t, picks[..m], values[..m]);
      assert p !in picks[..m];
      PlaceElsewhere(t, picks[..m], values[..m], p);
      UpdateMultiset(prev, p, v);
      assert ReadAt(t, picks) == ReadAt(t, picks[..m]) + [t[p]];
      assert values == values[..m] + [v];
      TradeStep(multiset(prev), multiset(prev[p := v]), multiset(ReadAt(t, picks[..m])),
                multiset(ReadAt(t, picks)), multiset(values[..m]), multiset(values), multiset(t), t[p], v);
    } else {
      assert ReadAt(t, picks) == [] && values == [];
    }
  }

  /** Writing a rearrangement of the values read at the chosen positions keeps a tour a tour. */
  lemma RepairKeepsTour(t: seq<int>, n: nat, picks: seq<int>, values: seq<int>)
    requires IsTour(t, n) && ValidPicks(picks, n)
    requires multiset(values) == multiset(ReadAt(t, picks))
    ensures |values| == |picks|
    ensures IsTour(Place(t, picks, values), n)
    ensures multiset(ReadAt(Place(t, picks, values), picks)) == multiset(ReadAt(t, picks))
  {
    assert |values| == |multiset(values)| == |multiset(ReadAt(t, picks))| == |picks|;
    var r := Place(t, picks, values);
    PlaceMultiset(t, picks, values);
    PlaceReadsBack(t, picks, values);
    assert 0 !in picks;
    PlaceElsewhere(t, picks, values, 0);
    MultisetCancel(multiset(r), multiset(t), multiset(values));
  }

  /** The values read at distinct positions of a tour are distinct. */
  lemma ReadAtDistinct(t: seq<int>, n: nat, picks: seq<int>)
    requires IsTour(t, n) && ValidPicks(picks, n)
    ensures Distinct(ReadAt(t, picks))
  {
    TourCities(t, n);
  }
}
