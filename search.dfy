/**
 * What the solver computes, on values: one destroy-and-repair round offers each candidate
 * arrangement of the chosen positions in turn and keeps it only when the tour gets strictly
 * shorter; a run of the large neighbourhood search is a sequence of such rounds.
 */
module Search {
  import opened Sequences
  import opened Tables
  import opened Hamiltonian
  import opened Tours
  import opened Permutations

  /** The `max_iter` that `lns` leaves `destroy_and_repair` at. */
  const DefaultMaxIter := 1000

  /** A new best tour, its length and the positions whose rearrangement produced it. */
  datatype Improvement = Improvement(tour: seq<int>, y: real, n: seq<int>)

  /** The best tour so far, its length, the improvements in the order found, and how many candidates were tried. */
  datatype Trial = Trial(tour: seq<int>, y: real, found: seq<Improvement>, tried: nat)

  /** Improvements that are tours, each strictly shorter than the one before and the first shorter than `y0`. */
  predicate Descending(found: seq<Improvement>, n: nat, d: Table, y0: real)
  {
    (forall k :: 0 <= k < |found| ==>
       IsTour(found[k].tour, n) && found[k].y == CycleLength(found[k].tour, d) && found[k].y < y0) &&
    (forall j, k :: 0 <= j < k < |found| ==> found[k].y < found[j].y)
  }

  /**
   * `r` is what a search from the tour `t0` may end in: a tour no longer than `t0`, reached through
   * strictly improving steps, the last of which is `r` itself; with no improvement it is `t0`.
   */
  predicate Improves(t0: seq<int>, n: nat, d: Table, r: Trial)
  {
    IsTour(r.tour, n) && r.y == CycleLength(r.tour, d) && r.y <= CycleLength(t0, d) &&
    Descending(r.found, n, d, CycleLength(t0, d)) &&
    (r.found == [] ==> r.tour == t0) &&
    (r.found != [] ==> r.found[|r.found| - 1].tour == r.tour && r.found[|r.found| - 1].y == r.y)
  }

  /** What a round needs: a tour over a complete table, valid positions, and rearrangements of the values there. */
  predicate RoundInput(t: seq<int>, n: nat, d: Table, picks: seq<int>, cands: seq<seq<int>>)
  {
    n >= 2 && Complete(d, n) && IsTour(t, n) && ValidPicks(picks, n) &&
    forall c :: c in cands ==> multiset(c) == multiset(ReadAt(t, picks))
  }

  /**
   * One candidate: write it into the best tour at the chosen positions, measure, and keep the
   * result only when it is strictly shorter than the best length.
   */
  function Step(tr: Trial, n: nat, d: Table, picks: seq<int>, cand: seq<int>): (r: Trial)
    requires n >= 2 && Complete(d, n) && IsTour(tr.tour, n) && ValidPicks(picks, n)
    requires multiset(cand) == multiset(ReadAt(tr.tour, picks))
    ensures IsTour(r.tour, n)
    ensures multiset(ReadAt(r.tour, picks)) == multiset(ReadAt(tr.tour, picks))
    ensures r.tried == tr.tried + 1
  {
    RepairKeepsTour(tr.tour, n, picks, cand);
    var t := Place(tr.tour, picks, cand);
    var y := CycleLength(t, d);
    if y < tr.y then Trial(t, y, tr.found + [Improvement(t, y, picks)], tr.tried + 1)
    else Trial(tr.tour, tr.y, tr.found, tr.tried + 1)
  }

  /** The two outcomes of a step, for a written tour `t` that measures `y`. */
  lemma StepOutcome(tr: Trial, n: nat, d: Table, picks: seq<int>, cand: seq<int>, t: seq<int>, y: real)
    requires n >= 2 && Complete(d, n) && IsTour(tr.tour, n) && ValidPicks(picks, n)
    requires multiset(cand) == multiset(ReadAt(tr.tour, picks))
    requires |cand| == |picks| && t == Place(tr.tour, picks, cand) && y == CycleLength(t, d)
    ensures y < tr.y ==> Step(tr, n, d, picks, cand) == Trial(t, y, tr.found + [Improvement(t, y, picks)], tr.tried + 1)
    ensures y >= tr.y ==> Step(tr, n, d, picks, cand) == Trial(tr.tour, tr.y, tr.found, tr.tried + 1)
  {
  }

  /** A strictly shorter tour found after an improving search extends it. */
  lemma ImprovesAppend(t0: seq<int>, n: nat, d: Table, tr: Trial, e: Improvement, tried: nat)
    requires Improves(t0, n, d, tr)
    requires IsTour(e.tour, n) && e.y == CycleLength(e.tour, d) && e.y < tr.y
    ensures Improves(t0, n, d, Trial(e.tour, e.y, tr.found + [e], tried))
  {
    var found := tr.found + [e];
    var m := |tr.found|;
    forall j | 0 <= j < m
      ensures e.y < tr.found[j].y
    {
      assert tr.found[j].y >= tr.y by {
        if j < m - 1 {
          assert tr.found[m - 1].y < tr.found[j].y;
        }
      }
    }
    assert found[m] == e;
  }

  /** A step from a state that `Improves` on `t0` still improves on `t0`. */
  lemma StepImproves(t0: seq<int>, tr: Trial, n: nat, d: Table, picks: seq<int>, cand: seq<int>)
    requires n >= 2 && Complete(d, n) && IsTour(tr.tour, n) && ValidPicks(picks, n)
    requires multiset(cand) == multiset(ReadAt(tr.tour, picks))
    requires Improves(t0, n, d, tr)
    ensures Improves(t0, n, d, Step(tr, n, d, picks, cand))
    ensures var r := Step(tr, n, d, picks, cand);
              r.found == tr.found || r.found == tr.found + [Improvement(r.tour, r.y, picks)]
  {
    var r := Step(tr, n, d, picks, cand);
    if r.found != tr.found {
      ImprovesAppend(t0, n, d, tr, Improvement(r.tour, r.y, picks), r.tried);
    }
  }

  /**
   * A whole `destroy_and_repair` round from the tour `t0` over the candidate arrangements
   * `cands` of the positions `picks`.
   */
  function Sweep(t0: seq<int>, n: nat, d: Table, picks: seq<int>, cands: seq<seq<int>>): (r: Trial)
    requires RoundInput(t0, n, d, picks, cands)
    ensures IsTour(r.tour, n)
    ensures multiset(ReadAt(r.tour, picks)) == multiset(ReadAt(t0, picks))
    ensures r.tried == |cands|
    decreases |cands|
  {
    if cands == [] then
      Trial(t0, CycleLength(t0, d), [], 0)
    else
      var m := |cands| - 1;
      SweepPrefix(t0, n, d, picks, cands);
      var prev := Sweep(t0, n, d, picks, cands[..m]);
      Step(prev, n, d, picks, cands[m])
  }

  /** Every improvement was found by rearranging the positions `picks`. */
  predicate TaggedWith(found: seq<Improvement>, picks: seq<int>)
  {
    forall k :: 0 <= k < |found| ==> found[k].n == picks
  }

  /** A step logs at most one improvement, tagged with its positions. */
  lemma StepTagged(tr: Trial, n: nat, d: Table, picks: seq<int>, cand: seq<int>)
    requires n >= 2 && Complete(d, n) && IsTour(tr.tour, n) && ValidPicks(picks, n)
    requires multiset(cand) == multiset(ReadAt(tr.tour, picks))
    requires TaggedWith(tr.found, picks)
    ensures var r := Step(tr, n, d, picks, cand);
            TaggedWith(r.found, picks) && |r.found| <= |tr.found| + 1
  {
    var r := Step(tr, n, d, picks, cand);
    if r.found != tr.found {
      assert r.found == tr.found + [r.found[|tr.found|]];
      assert r.found[|tr.found|].n == picks;
    }
  }

  /**
   * A round never lengthens the tour: it ends in a tour no longer than `t0`, and the
   * improvements it records are strictly decreasing, at most one per candidate, each tagged
   * with the round's positions.
   */
  lemma {:induction false} SweepImproves(t0: seq<int>, n: nat, d: Table, picks: seq<int>, cands: seq<seq<int>>)
    requires RoundInput(t0, n, d, picks, cands)
    ensures var r := Sweep(t0, n, d, picks, cands);
            Improves(t0, n, d, r) && |r.found| <= |cands| && TaggedWith(r.found, picks)
    decreases |cands|
  {
    if cands != [] {
      var m := |cands| - 1;
      SweepPrefix(t0, n, d, picks, cands);
      SweepImproves(t0, n, d, picks, cands[..m]);
      var prev := Sweep(t0, n, d, picks, cands[..m]);
      StepImproves(t0, prev, n, d, picks, cands[m]);
      StepTagged(prev, n, d, picks, cands[m]);
    }
  }

  /** Every prefix of a round's candidates fits the round. */
  lemma RoundInputPrefix(t0: seq<int>, n: nat, d: Table, picks: seq<int>, cands: seq<seq<int>>, k: nat)
    requires RoundInput(t0, n, d, picks, cands) && k <= |cands|
    ensures RoundInput(t0, n, d, picks, cands[..k])
  {
    var init := cands[..k];
    forall c | c in init
      ensures multiset(c) == multiset(ReadAt(t0, picks))
    {
      var i :| 0 <= i < |init| && init[i] == c;
      assert cands[i] == c;
      assert c in cands;
    }
  }

  /** Dropping the last candidate leaves a round's input, and the last candidate fits it. */
  lemma SweepPrefix(t0: seq<int>, n: nat, d: Table, picks: seq<int>, cands: seq<seq<int>>)
    requires RoundInput(t0, n, d, picks, cands) && cands != []
    ensures RoundInput(t0, n, d, picks, cands[..|cands| - 1])
    ensures multiset(cands[|cands| - 1]) == multiset(ReadAt(t0, picks))
  {
    RoundInputPrefix(t0, n, d, picks, cands, |cands| - 1);
    assert cands[|cands| - 1] in cands;
  }

  /** Taking one more candidate into a round extends it by one `Step`. */
  lemma SweepStep(t0: seq<int>, n: nat, d: Table, picks: seq<int>, cands: seq<seq<int>>, c: nat)
    requires RoundInput(t0, n, d, picks, cands) && c < |cands|
    ensures RoundInput(t0, n, d, picks, cands[..c]) && RoundInput(t0, n, d, picks, cands[..c + 1])
    ensures var prev := Sweep(t0, n, d, picks, cands[..c]);
            multiset(cands[c]) == multiset(ReadAt(prev.tour, picks)) &&
            Sweep(t0, n, d, picks, cands[..c + 1]) == Step(prev, n, d, picks, cands[c])
  {
    RoundInputPrefix(t0, n, d, picks, cands, c);
    RoundInputPrefix(t0, n, d, picks, cands, c + 1);
    assert cands[..c + 1][..c] == cands[..c];
    assert cands[c] in cands;
  }

  /** Two descending runs, the second below the first's last length, descend together. */
  lemma DescendingConcat(a: seq<Improvement>, b: seq<Improvement>, n: nat, d: Table, y0: real, y1: real)
    requires Descending(a, n, d, y0) && Descending(b, n, d, y1) && y1 <= y0
    requires a != [] ==> y1 <= a[|a| - 1].y
    ensures Descending(a + b, n, d, y0)
  {
    var found := a + b;
    var m := |a|;
    forall i, j | 0 <= i < j < |found|
      ensures found[j].y < found[i].y
    {
      if i < m && j >= m {
        assert found[j] == b[j - m];
        assert a[i].y >= y1 by {
          if i < m - 1 {
            assert a[m - 1].y < a[i].y;
          }
        }
      }
    }
  }

  /** Improvements found by a search from `a.tour` extend those by which `a` was reached from `t0`. */
  lemma ImprovesChain(t0: seq<int>, n: nat, d: Table, a: Trial, b: Trial)
    requires Improves(t0, n, d, a) && Improves(a.tour, n, d, b)
    ensures Improves(t0, n, d, Trial(b.tour, b.y, a.found + b.found, a.tried + b.tried))
  {
    DescendingConcat(a.found, b.found, n, d, CycleLength(t0, d), a.y);
    var found := a.found + b.found;
    if b.found == [] {
      assert found == a.found;
    } else {
      assert found[|found| - 1] == b.found[|b.found| - 1];
    }
  }

  /** The permutations the random source yields in round `r` when asked to shuffle `v`. */
  type Shuffler = (nat, seq<int>) -> seq<seq<int>>

  /**
   * Each round's shuffles are rearrangements of the values asked for, and there are enough that
   * differ from them for the sampling loop to finish.
   */
  ghost predicate ShufflerOk(shuffle: Shuffler, maxIter: int)
  {
    forall r: nat, v: seq<int> :: Distinct(v) ==> DrawsOk(shuffle(r, v), v, maxIter)
  }

  /** Positions drawn for each of the first `rounds` rounds. */
  predicate RoundPicks(picks: seq<seq<int>>, n: nat, size: nat, rounds: nat)
  {
    rounds <= |picks| && forall r :: 0 <= r < rounds ==> |picks[r]| == size && ValidPicks(picks[r], n)
  }

  /** A round from where an improving search stands keeps the search improving. */
  lemma RoundImproves(t0: seq<int>, n: nat, d: Table, prev: Trial, picks: seq<int>, cands: seq<seq<int>>)
    requires Improves(t0, n, d, prev) && RoundInput(prev.tour, n, d, picks, cands)
    ensures var s := Sweep(prev.tour, n, d, picks, cands);
            Improves(t0, n, d, Trial(s.tour, s.y, prev.found + s.found, prev.tried + s.tried))
  {
    SweepImproves(prev.tour, n, d, picks, cands);
    ImprovesChain(t0, n, d, prev, Sweep(prev.tour, n, d, picks, cands));
  }

  /** The candidates of round `r` from the tour `t`: `node_permutations` of the values at `picks`. */
  function RoundCandidates(t: seq<int>, n: nat, picks: seq<int>, shuffle: Shuffler, r: nat): (c: seq<seq<int>>)
    requires IsTour(t, n) && ValidPicks(picks, n) && ShufflerOk(shuffle, DefaultMaxIter)
    ensures forall p :: p in c ==> p != ReadAt(t, picks) && multiset(p) == multiset(ReadAt(t, picks))
  {
    var v := ReadAt(t, picks);
    ReadAtDistinct(t, n, picks);
    CandidatesRearrange(v, DefaultMaxIter, shuffle(r, v));
    Candidates(v, DefaultMaxIter, shuffle(r, v))
  }

  /** One round of `lns` from where the search stands: a `Sweep` over the round's candidates. */
  function Advance(acc: Trial, n: nat, d: Table, picks: seq<int>, shuffle: Shuffler, r: nat): (next: Trial)
    requires n >= 2 && Complete(d, n) && IsTour(acc.tour, n) && ValidPicks(picks, n)
    requires ShufflerOk(shuffle, DefaultMaxIter)
    ensures IsTour(next.tour, n)
  {
    var cands := RoundCandidates(acc.tour, n, picks, shuffle, r);
    var sweep := Sweep(acc.tour, n, d, picks, cands);
    Trial(sweep.tour, sweep.y, acc.found + sweep.found, acc.tried + sweep.tried)
  }

  /**
   * A round of `lns` tries `k! - 1` candidates for a neighbourhood of `k` positions when
   * `k! <= max_iter`, and exactly `max_iter` otherwise.
   */
  lemma AdvanceCount(acc: Trial, n: nat, d: Table, picks: seq<int>, shuffle: Shuffler, r: nat)
    requires n >= 2 && Complete(d, n) && IsTour(acc.tour, n) && ValidPicks(picks, n)
    requires ShufflerOk(shuffle, DefaultMaxIter)
    ensures Advance(acc, n, d, picks, shuffle, r).tried ==
              acc.tried + if Fact(|picks|) > DefaultMaxIter then DefaultMaxIter else Fact(|picks|) - 1
  {
    var v := ReadAt(acc.tour, picks);
    ReadAtDistinct(acc.tour, n, picks);
    if Fact(|v|) > DefaultMaxIter {
      SampledCandidates(v, DefaultMaxIter, shuffle(r, v));
    } else {
      ExhaustiveCandidates(v, DefaultMaxIter, shuffle(r, v));
    }
  }

  /** A round of `lns` from where an improving search stands keeps it improving. */
  lemma AdvanceImproves(t0: seq<int>, acc: Trial, n: nat, d: Table, picks: seq<int>, shuffle: Shuffler, r: nat)
    requires n >= 2 && Complete(d, n) && IsTour(acc.tour, n) && ValidPicks(picks, n)
    requires ShufflerOk(shuffle, DefaultMaxIter) && Improves(t0, n, d, acc)
    ensures Improves(t0, n, d, Advance(acc, n, d, picks, shuffle, r))
  {
    var cands := RoundCandidates(acc.tour, n, picks, shuffle, r);
    RoundImproves(t0, n, d, acc, picks, cands);
  }

  /** Rounds `r .. rounds - 1` of `lns`, continuing from `acc`. */
  function RunFrom(acc: Trial, n: nat, d: Table, size: nat, picks: seq<seq<int>>, shuffle: Shuffler, r: nat, rounds: nat): Trial
    requires n >= 2 && Complete(d, n) && IsTour(acc.tour, n) && r <= rounds
    requires RoundPicks(picks, n, size, rounds) && ShufflerOk(shuffle, DefaultMaxIter)
    decreases rounds - r, 1
  {
    if r == rounds then acc else RunNext(acc, n, d, size, picks, shuffle, r, rounds)
  }

  /** Round `r` from `acc`, then the rounds after it. */
  function RunNext(acc: Trial, n: nat, d: Table, size: nat, picks: seq<seq<int>>, shuffle: Shuffler, r: nat, rounds: nat): Trial
    requires n >= 2 && Complete(d, n) && IsTour(acc.tour, n) && r < rounds
    requires RoundPicks(picks, n, size, rounds) && ShufflerOk(shuffle, DefaultMaxIter)
    decreases rounds - r, 0
  {
    RunFrom(Advance(acc, n, d, picks[r], shuffle, r), n, d, size, picks, shuffle, r + 1, rounds)
  }

  /** Running rounds `r ..` from `acc` is running rounds `r + 1 ..` from its `Advance`. */
  lemma RunFromStep(acc: Trial, next: Trial, n: nat, d: Table, size: nat, picks: seq<seq<int>>, shuffle: Shuffler, r: nat, rounds: nat)
    requires n >= 2 && Complete(d, n) && IsTour(acc.tour, n) && r < rounds
    requires RoundPicks(picks, n, size, rounds) && ShufflerOk(shuffle, DefaultMaxIter)
    requires next == Advance(acc, n, d, picks[r], shuffle, r)
    ensures IsTour(next.tour, n)
    ensures RunFrom(acc, n, d, size, picks, shuffle, r, rounds) == RunFrom(next, n, d, size, picks, shuffle, r + 1, rounds)
  {
  }

  /** The first `rounds` rounds of `lns` from the tour `t0`, each starting from the best tour the previous one left. */
  function Run(t0: seq<int>, n: nat, d: Table, size: nat, picks: seq<seq<int>>, shuffle: Shuffler, rounds: nat): Trial
    requires n >= 2 && Complete(d, n) && IsTour(t0, n)
    requires RoundPicks(picks, n, size, rounds) && ShufflerOk(shuffle, DefaultMaxIter)
  {
    RunFrom(Trial(t0, CycleLength(t0, d), [], 0), n, d, size, picks, shuffle, 0, rounds)
  }

  /** Rounds continuing an improving search keep it improving. */
  lemma {:induction false} RunFromImproves(t0: seq<int>, acc: Trial, n: nat, d: Table, size: nat, picks: seq<seq<int>>,
                                           shuffle: Shuffler, r: nat, rounds: nat)
    requires n >= 2 && Complete(d, n) && IsTour(acc.tour, n) && r <= rounds
    requires RoundPicks(picks, n, size, rounds) && ShufflerOk(shuffle, DefaultMaxIter)
    requires Improves(t0, n, d, acc)
    ensures Improves(t0, n, d, RunFrom(acc, n, d, size, picks, shuffle, r, rounds))
    decreases rounds - r
  {
    if r < rounds {
      var next := Advance(acc, n, d, picks[r], shuffle, r);
      AdvanceImproves(t0, acc, n, d, picks[r], shuffle, r);
      RunFromImproves(t0, next, n, d, size, picks, shuffle, r + 1, rounds);
    }
  }

  /**
   * `lns` never lengthens the tour: after any number of rounds the best tour is no longer than
   * the first, reached through strictly decreasing logged lengths, the last of which is the result.
   */
  lemma RunImproves(t0: seq<int>, n: nat, d: Table, size: nat, picks: seq<seq<int>>, shuffle: Shuffler, rounds: nat)
    requires n >= 2 && Complete(d, n) && IsTour(t0, n)
    requires RoundPicks(picks, n, size, rounds) && ShufflerOk(shuffle, DefaultMaxIter)
    ensures Improves(t0, n, d, Run(t0, n, d, size, picks, shuffle, rounds))
  {
    RunFromImproves(t0, Trial(t0, CycleLength(t0, d), [], 0), n, d, size, picks, shuffle, 0, rounds);
  }
}
