/**
 * Candidate orderings of the values read from a neighbourhood (`node_permutations`): every
 * other ordering when there are at most `max_iter` orderings in all, otherwise `max_iter`
 * random orderings that differ from the input.
 */
module Permutations {
  import opened Sequences

  function Fact(n: nat): (r: nat)
    ensures r >= 1
  {
    if n == 0 then 1 else n * Fact(n - 1)
  }

  /** The items of `xs` that differ from `v`, in order. */
  function Others(xs: seq<seq<int>>, v: seq<int>): (r: seq<seq<int>>)
    ensures |r| <= |xs|
    ensures forall p :: p in r ==> p in xs && p != v
    ensures forall p :: p in xs && p != v ==> p in r
  {
    if xs == [] then []
    else Others(xs[..|xs| - 1], v) + (if xs[|xs| - 1] != v then [xs[|xs| - 1]] else [])
  }

  lemma {:induction false} OthersConcat(a: seq<seq<int>>, b: seq<seq<int>>, v: seq<int>)
    ensures Others(a + b, v) == Others(a, v) + Others(b, v)
  {
    if b == [] {
      assert a + b == a;
    } else {
      var init := b[..|b| - 1];
      assert (a + b)[..|a + b| - 1] == a + init;
      OthersConcat(a, init, v);
    }
  }

  /** Filtering one value out of a distinct sequence keeps it distinct and drops that value once. */
  lemma {:induction false} OthersOfDistinct(xs: seq<seq<int>>, v: seq<int>)
    requires Distinct(xs)
    ensures Distinct(Others(xs, v))
    ensures |Others(xs, v)| == if v in xs then |xs| - 1 else |xs|
  {
    if xs != [] {
      var init, last := xs[..|xs| - 1], xs[|xs| - 1];
      assert xs == init + [last];
      assert Distinct(init);
      OthersOfDistinct(init, v);
      assert last !in init;
      assert last !in Others(init, v);
      assert v in xs <==> v in init || v == last;
    }
  }


  /** `v` without its element at position `i`. */
  function Drop(v: seq<int>, i: nat): (r: seq<int>)
    requires i < |v|
    ensures |r| == |v| - 1
  {
    v[..i] + v[i + 1..]
  }

  /** Each sequence of `ps` with `x` put in front. */
  function Prefixed(x: int, ps: seq<seq<int>>): (r: seq<seq<int>>)
    ensures |r| == |ps|
    ensures forall j :: 0 <= j < |ps| ==> r[j] == [x] + ps[j]
  {
    seq(|ps|, j requires 0 <= j < |ps| => [x] + ps[j])
  }

  /**
   * Every ordering of the positions of `v`, as `itertools.permutations` lists them: first the
   * orderings starting with `v[0]`, then those starting with `v[1]`, and so on.
   */
  function AllPerms(v: seq<int>): seq<seq<int>>
    decreases |v|, 1
  {
    if v == [] then [[]] else PermsFrom(v, 0)
  }

  /** The orderings of `v` that start with one of `v[i..]`. */
  function PermsFrom(v: seq<int>, i: nat): seq<seq<int>>
    requires i <= |v|
    decreases |v|, 0, |v| - i
  {
    if i == |v| then [] else Prefixed(v[i], AllPerms(Drop(v, i))) + PermsFrom(v, i + 1)
  }

  lemma {:induction false} PermsFromMember(v: seq<int>, i: nat, x: seq<int>)
    requires i <= |v|
    ensures x in PermsFrom(v, i) <==> exists k :: i <= k < |v| && x in Prefixed(v[k], AllPerms(Drop(v, k)))
    decreases |v| - i
  {
    if i < |v| {
      PermsFromMember(v, i + 1, x);
    }
  }

  /** There are `|v|!` orderings of `v`'s positions. */
  lemma {:induction false} AllPermsLength(v: seq<int>)
    ensures |AllPerms(v)| == Fact(|v|)
    decreases |v|, 1
  {
    if v != [] {
      PermsFromLength(v, 0);
    }
  }

  lemma MulSucc(k: int, f: int)
    ensures f + k * f == (k + 1) * f
  {
  }

  lemma {:induction false} PermsFromLength(v: seq<int>, i: nat)
    requires i <= |v| && v != []
    ensures |PermsFrom(v, i)| == (|v| - i) * Fact(|v| - 1)
    decreases |v|, 0, |v| - i
  {
    if i < |v| {
      AllPermsLength(Drop(v, i));
      PermsFromLength(v, i + 1);
      var f, k := Fact(|v| - 1), |v| - (i + 1);
      assert |PermsFrom(v, i)| == f + |PermsFrom(v, i + 1)|;
      MulSucc(k, f);
    }
  }

  /** Removing position `i` removes one copy of `v[i]`. */
  lemma DropMultiset(v: seq<int>, i: nat)
    requires i < |v|
    ensures multiset(Drop(v, i)) + multiset{v[i]} == multiset(v)
  {
    assert v == v[..i] + [v[i]] + v[i + 1..];
  }

  /** Every listed ordering is a rearrangement of `v`. */
  lemma {:induction false} AllPermsSound(v: seq<int>, p: seq<int>)
    requires p in AllPerms(v)
    ensures multiset(p) == multiset(v)
    decreases |v|, 1
  {
    if v != [] {
      PermsFromMember(v, 0, p);
      var k :| 0 <= k < |v| && p in Prefixed(v[k], AllPerms(Drop(v, k)));
      PrefixedSound(v, k, p);
    }
  }

  /** An ordering that starts with `v[k]` and goes on with an ordering of the rest rearranges `v`. */
  lemma {:induction false} PrefixedSound(v: seq<int>, k: nat, p: seq<int>)
    requires k < |v| && p in Prefixed(v[k], AllPerms(Drop(v, k)))
    ensures multiset(p) == multiset(v)
    decreases |v|, 0
  {
    var sub := AllPerms(Drop(v, k));
    var j :| 0 <= j < |sub| && p == [v[k]] + sub[j];
    AllPermsSound(Drop(v, k), sub[j]);
    DropMultiset(v, k);
  }

  /** Every rearrangement of `v` is listed. */
  lemma {:induction false} AllPermsComplete(v: seq<int>, q: seq<int>)
    requires multiset(q) == multiset(v)
    ensures q in AllPerms(v)
    decreases |v|
  {
    assert |q| == |multiset(q)| == |v|;
    if v == [] {
      assert q == [];
    } else {
      assert q[0] in multiset(v);
      var k :| 0 <= k < |v| && v[k] == q[0];
      var rest := q[1..];
      assert q == [q[0]] + rest;
      DropMultiset(v, k);
      assert multiset(rest) + multiset{q[0]} == multiset(q);
      MultisetCancel(multiset(rest), multiset(Drop(v, k)), multiset{q[0]});
      AllPermsComplete(Drop(v, k), rest);
      var sub := AllPerms(Drop(v, k));
      var j :| 0 <= j < |sub| && sub[j] == rest;
      assert Prefixed(v[k], sub)[j] == q;
      PermsFromMember(v, 0, q);
    }
  }

  lemma DropDistinct(v: seq<int>, i: nat)
    requires i < |v| && Distinct(v)
    ensures Distinct(Drop(v, i))
    ensures v[i] !in Drop(v, i)
  {
    var r := Drop(v, i);
    forall k | 0 <= k < |r| ensures r[k] == v[if k < i then k else k + 1] {}
  }

  lemma DistinctConcat(a: seq<seq<int>>, b: seq<seq<int>>)
    requires Distinct(a) && Distinct(b)
    requires forall x :: x in a ==> x !in b
    ensures Distinct(a + b)
  {
    forall i, j | 0 <= i < j < |a + b|
      ensures (a + b)[i] != (a + b)[j]
    {
      if i < |a| <= j {
        assert a[i] in a;
        assert b[j - |a|] in b;
      }
    }
  }

  /** For distinct values no ordering is listed twice. */
  lemma {:induction false} AllPermsDistinct(v: seq<int>)
    requires Distinct(v)
    ensures Distinct(AllPerms(v))
    decreases |v|, 1
  {
    if v != [] {
      PermsFromDistinct(v, 0);
    }
  }

  /** In a sequence without repeats, an element does not occur again further on. */
  lemma DistinctNotAfter(v: seq<int>, i: nat)
    requires i < |v| && Distinct(v)
    ensures v[i] !in v[i + 1..]
  {
    forall k | i + 1 <= k < |v|
      ensures v[k] != v[i]
    {
    }
  }

  /** Putting the same element in front keeps distinct sequences distinct. */
  lemma PrefixedDistinct(x: int, ps: seq<seq<int>>)
    requires Distinct(ps)
    ensures Distinct(Prefixed(x, ps))
  {
    var r := Prefixed(x, ps);
    forall j, k | 0 <= j < k < |r|
      ensures r[j] != r[k]
    {
      assert r[j][1..] == ps[j] && r[k][1..] == ps[k];
    }
  }

  /** The orderings listed from position `i` on start with one of `v[i..]`. */
  lemma {:induction false} PermsFromHeads(v: seq<int>, i: nat)
    requires i <= |v|
    ensures forall x :: x in PermsFrom(v, i) ==> |x| > 0 && x[0] in v[i..]
    decreases |v| - i
  {
    if i < |v| {
      PermsFromHeads(v, i + 1);
      var block := Prefixed(v[i], AllPerms(Drop(v, i)));
      forall x | x in PermsFrom(v, i)
        ensures |x| > 0 && x[0] in v[i..]
      {
        if x in block {
          var j :| 0 <= j < |block| && block[j] == x;
          assert x[0] == v[i];
        } else {
          assert x in PermsFrom(v, i + 1);
        }
      }
    }
  }

  lemma {:induction false} PermsFromDistinct(v: seq<int>, i: nat)
    requires i <= |v| && Distinct(v)
    ensures Distinct(PermsFrom(v, i))
    decreases |v|, 0, |v| - i
  {
    if i < |v| {
      DropDistinct(v, i);
      AllPermsDistinct(Drop(v, i));
      PermsFromDistinct(v, i + 1);
      PermsFromHeads(v, i + 1);
      var block := Prefixed(v[i], AllPerms(Drop(v, i)));
      PrefixedDistinct(v[i], AllPerms(Drop(v, i)));
      DistinctNotAfter(v, i);
      forall x | x in block
        ensures x !in PermsFrom(v, i + 1)
      {
        var j :| 0 <= j < |block| && block[j] == x;
        assert x[0] == v[i];
      }
      DistinctConcat(block, PermsFrom(v, i + 1));
    }
  }

  /** Enough random draws for the sampling strategy to stop: at least one, and `max_iter` accepted ones. */
  predicate Supply(draws: seq<seq<int>>, v: seq<int>, maxIter: int)
  {
    |draws| >= 1 && (maxIter >= 1 ==> |Others(draws, v)| >= maxIter)
  }

  /** What the random source must deliver: shuffles of `v`, and enough of them when sampling. */
  predicate DrawsOk(draws: seq<seq<int>>, v: seq<int>, maxIter: int)
  {
    (forall d :: d in draws ==> multiset(d) == multiset(v)) &&
    (Fact(|v|) > maxIter ==> Supply(draws, v, maxIter))
  }

  /**
   * The sequence `node_permutations(v, max_iter)` yields when the random source delivers `draws`.
   * Sampling accepts non-identity draws and stops once `max_iter` are accepted; the stop test
   * follows every draw, so a `max_iter` below 1 ends after the first draw.
   */
  function Candidates(v: seq<int>, maxIter: int, draws: seq<seq<int>>): seq<seq<int>>
    requires Fact(|v|) > maxIter ==> Supply(draws, v, maxIter)
  {
    if Fact(|v|) > maxIter then
      if maxIter >= 1 then Others(draws, v)[..maxIter] else Others(draws[..1], v)
    else Others(AllPerms(v), v)
  }

  /** `node_permutations`, with the random shuffles supplied as `draws`. */
  method NodePermutations(vector: seq<int>, maxIter: int, draws: seq<seq<int>>) returns (out: seq<seq<int>>)
    requires Fact(|vector|) > maxIter ==> Supply(draws, vector, maxIter)
    ensures out == Candidates(vector, maxIter, draws)
  {
    if Fact(|vector|) > maxIter {
      out := SampleOthers(vector, maxIter, draws);
    } else {
      out := ListOthers(vector);
    }
  }

  /** The sampling loop: accept draws that differ from `vector` until `maxIter` are accepted. */
  method SampleOthers(vector: seq<int>, maxIter: int, draws: seq<seq<int>>) returns (out: seq<seq<int>>)
    requires Supply(draws, vector, maxIter)
    ensures maxIter >= 1 ==> out == Others(draws, vector)[..maxIter]
    ensures maxIter < 1 ==> out == Others(draws[..1], vector)
  {
    var i := 0;
    var t := 0;
    out := [];
    while true
      invariant 0 <= t <= |draws|
      invariant out == Others(draws[..t], vector) && i == |out|
      invariant t > 0 ==> i < maxIter
      decreases |draws| - t
    {
      assert t < |draws| by {
        assert draws[..|draws|] == draws;
      }
      var perm := draws[t];
      assert draws[..t + 1][..t] == draws[..t];
      t := t + 1;
      if perm != vector {
        i := i + 1;
        out := out + [perm];
      }
      if i >= maxIter {
        break;
      }
    }
    if maxIter >= 1 {
      assert draws == draws[..t] + draws[t..];
      OthersConcat(draws[..t], draws[t..], vector);
    }
  }

  /** The enumeration loop: every ordering from `AllPerms` except `vector` itself. */
  method ListOthers(vector: seq<int>) returns (out: seq<seq<int>>)
    ensures out == Others(AllPerms(vector), vector)
  {
    out := [];
    var all := AllPerms(vector);
    var j := 0;
    while j < |all|
      invariant 0 <= j <= |all|
      invariant out == Others(all[..j], vector)
    {
      assert all[..j + 1][..j] == all[..j];
      if all[j] != vector {
        out := out + [all[j]];
      }
      j := j + 1;
    }
    assert all[..j] == all;
  }

  /** Nothing yielded equals the input, and everything yielded is a rearrangement of it. */
  lemma CandidatesRearrange(v: seq<int>, maxIter: int, draws: seq<seq<int>>)
    requires DrawsOk(draws, v, maxIter)
    ensures forall p :: p in Candidates(v, maxIter, draws) ==> p != v && multiset(p) == multiset(v)
  {
    var c := Candidates(v, maxIter, draws);
    forall p | p in c
      ensures p != v && multiset(p) == multiset(v)
    {
      if Fact(|v|) > maxIter {
        if maxIter >= 1 {
          var others := Others(draws, v);
          assert p in others;
          assert p in draws;
        } else {
          assert p in draws[..1];
          assert p == draws[0];
          assert p in draws;
        }
      } else {
        AllPermsSound(v, p);
      }
    }
  }

  /** Every rearrangement of `v` other than `v` itself survives the filter. */
  lemma OthersComplete(v: seq<int>)
    ensures forall q :: multiset(q) == multiset(v) && q != v ==> q in Others(AllPerms(v), v)
  {
    forall q | multiset(q) == multiset(v) && q != v
      ensures q in Others(AllPerms(v), v)
    {
      AllPermsComplete(v, q);
    }
  }

  /** For distinct values, the other orderings are `|v|! - 1` distinct sequences. */
  lemma OthersCount(v: seq<int>)
    requires Distinct(v)
    ensures Distinct(Others(AllPerms(v), v)) && |Others(AllPerms(v), v)| == Fact(|v|) - 1
  {
    AllPermsDistinct(v);
    AllPermsLength(v);
    AllPermsComplete(v, v);
    OthersOfDistinct(AllPerms(v), v);
  }

  /** One value or none can be ordered only one way, so there is no other ordering. */
  lemma OthersTrivial(v: seq<int>)
    requires |v| <= 1
    ensures Others(AllPerms(v), v) == []
  {
    if v != [] {
      assert Drop(v, 0) == [];
      assert AllPerms(Drop(v, 0)) == [[]];
      assert PermsFrom(v, 1) == [];
      assert [v[0]] + [[]][0] == v;
      assert Prefixed(v[0], [[]]) == [v];
      assert PermsFrom(v, 0) == [v] + [];
      assert AllPerms(v) == [v];
      assert [v][..0] == [];
    }
  }

  /**
   * With at most `max_iter` orderings, every ordering other than the input is yielded; for
   * distinct values each exactly once, `|v|! - 1` in all; for one value or none, nothing.
   */
  lemma ExhaustiveCandidates(v: seq<int>, maxIter: int, draws: seq<seq<int>>)
    requires Fact(|v|) <= maxIter
    ensures forall q :: multiset(q) == multiset(v) && q != v ==> q in Candidates(v, maxIter, draws)
    ensures Distinct(v) ==> Distinct(Candidates(v, maxIter, draws)) &&
                            |Candidates(v, maxIter, draws)| == Fact(|v|) - 1
    ensures |v| <= 1 ==> Candidates(v, maxIter, draws) == []
  {
    assert Candidates(v, maxIter, draws) == Others(AllPerms(v), v);
    OthersComplete(v);
    if Distinct(v) {
      OthersCount(v);
    }
    if |v| <= 1 {
      OthersTrivial(v);
    }
  }

  /**
   * With more than `max_iter` orderings and `max_iter >= 1`, exactly `max_iter` accepted
   * draws are yielded, the first ones in draw order, repeats included.
   */
  lemma SampledCandidates(v: seq<int>, maxIter: int, draws: seq<seq<int>>)
    requires Fact(|v|) > maxIter && Supply(draws, v, maxIter)
    ensures maxIter >= 1 ==> |Candidates(v, maxIter, draws)| == maxIter &&
                             Candidates(v, maxIter, draws) == Others(draws, v)[..maxIter]
    ensures maxIter < 1 ==> |Candidates(v, maxIter, draws)| <= 1
  {
  }
}
