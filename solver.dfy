/**
 * `TSPSolver`: the mutable state of the large neighbourhood search. The current and the best
 * tour are integer arrays; each logged best solution holds the very array that was best when it
 * was logged, so a later rewrite of the current tour must never reach it.
 */
module Solver {
  import opened Sequences
  import opened Tables
  import opened Hamiltonian
  import opened Tours
  import opened Permutations
  import opened Search

  datatype Option<T> = None | Some(value: T)

  /** One entry of the best-solution log: the best tour (by reference), its length and the neighbourhood. */
  datatype LogEntry = LogEntry(x: array<int>, y: real, n: seq<int>)

  /** The arrays a log holds on to. */
  ghost function Arrays(log: seq<LogEntry>): set<array<int>>
  {
    set i | 0 <= i < |log| :: log[i].x
  }

  /** The log as values: each entry with its tour read out of its array. */
  ghost function View(log: seq<LogEntry>): (v: seq<Improvement>)
    reads Arrays(log)
    ensures |v| == |log|
  {
    seq(|log|, i requires 0 <= i < |log| reads Arrays(log) => Improvement(log[i].x[..], log[i].y, log[i].n))
  }

  /** Logging one more entry adds its value at the end of the view. */
  lemma ViewAppend(log: seq<LogEntry>, e: LogEntry)
    ensures View(log + [e]) == View(log) + [Improvement(e.x[..], e.y, e.n)]
  {
  }

  /** `array.copy()`: a fresh array with the same contents. */
  method Copy(a: array<int>) returns (b: array<int>)
    ensures fresh(b) && b[..] == a[..]
  {
    b := new int[a.Length](i requires 0 <= i < a.Length reads a => a[i]);
  }

  /** A new array holding `s`. */
  method FromSeq(s: seq<int>) returns (a: array<int>)
    ensures fresh(a) && a[..] == s
  {
    a := new int[|s|](i requires 0 <= i < |s| => s[i]);
  }

  /** `for i, j in enumerate(picks): a[j] = values[i]`. */
  method WriteAt(a: array<int>, picks: seq<int>, values: seq<int>)
    requires |values| == |picks| && InBounds(picks, a.Length)
    modifies a
    ensures a[..] == Place(old(a[..]), picks, values)
  {
    var i := 0;
    while i < |picks|
      invariant 0 <= i <= |picks|
      invariant InBounds(picks[..i], a.Length)
      invariant a[..] == Place(old(a[..]), picks[..i], values[..i])
    {
      assert picks[..i + 1][..i] == picks[..i] && values[..i + 1][..i] == values[..i];
      a[picks[i]] := values[i];
      i := i + 1;
    }
    assert picks[..i] == picks && values[..i] == values;
  }

  class TSPSolver {
    const distances: Table
    const nCities: nat
    var currX: array<int>
    var currY: real
    var bestX: array<int>
    var bestY: real
    var bestSolLog: seq<LogEntry>
    var allSolLog: seq<LogEntry>
    var neighbors: seq<int>
    var nIter: Option<nat>

    /** The state between two candidates: `currX` may hold a rewritten tour, never a logged one. */
    ghost predicate Inv()
      reads this`currX, this`bestX, this`bestY, this`bestSolLog, this`allSolLog, currX, bestX
    {
      nCities == NumCities(distances) && nCities >= 2 && Complete(distances, nCities) &&
      currX != bestX && currX !in Arrays(bestSolLog) &&
      IsTour(currX[..], nCities) && IsTour(bestX[..], nCities) && bestY == CycleLength(bestX[..], distances) &&
      allSolLog == []
    }

    /** The state between two calls: the current tour is a copy of the best one. */
    ghost predicate Valid()
      reads this`currX, this`currY, this`bestX, this`bestY, this`bestSolLog, this`allSolLog, currX, bestX
    {
      Inv() && currX[..] == bestX[..] && currY == bestY
    }

    /**
     * `__init__`: the tour starts at city 0 and visits the others in the order `order` (a random
     * permutation of `1 .. n_cities - 1` in the program); it is both the current and the best tour.
     */
    constructor (d: Table, order: seq<int>)
      requires NumCities(d) >= 2 && Complete(d, NumCities(d))
      requires multiset(order) == multiset(Range(1, NumCities(d)))
      ensures Valid()
      ensures distances == d && nCities == NumCities(d)
      ensures currX[..] == [0] + order && fresh(currX) && fresh(bestX)
      ensures bestY == CycleLength(bestX[..], d)
      ensures bestSolLog == [] && allSolLog == [] && neighbors == [] && nIter == None
    {
      var n := NumCities(d);
      var tour := [0] + order;
      StartTour(order, n);
      var cx := FromSeq(tour);
      var bx := Copy(cx);
      TourEdgesPresent(tour, n, d);
      var r := MeasureHamiltonian(cx[..], d);
      distances := d;
      nCities := n;
      currX := cx;
      bestX := bx;
      currY := r.value;
      bestY := r.value;
      bestSolLog := [];
      allSolLog := [];
      neighbors := [];
      nIter := None;
    }

    /** `log_best`: appends the best array itself (not a copy), its length and the neighbourhood. */
    method LogBest()
      modifies this`bestSolLog
      ensures bestSolLog == old(bestSolLog) + [LogEntry(bestX, bestY, neighbors)]
    {
      bestSolLog := bestSolLog + [LogEntry(bestX, bestY, neighbors)];
    }

    /** `calc`: measures the current tour; a strictly shorter one becomes the best (as a copy) and is logged. */
    method Calc()
      requires Inv()
      modifies this`currY, this`bestX, this`bestY, this`bestSolLog
      ensures Inv()
      ensures currX == old(currX)
      ensures currY == CycleLength(currX[..], distances)
      ensures neighbors == old(neighbors) && nIter == old(nIter)
      ensures currY < old(bestY) ==>
                fresh(bestX) && bestX[..] == currX[..] && bestY == currY &&
                bestSolLog == old(bestSolLog) + [LogEntry(bestX, bestY, neighbors)]
      ensures currY >= old(bestY) ==>
                bestX == old(bestX) && bestY == old(bestY) && bestSolLog == old(bestSolLog)
      ensures View(bestSolLog) == old(View(bestSolLog)) +
                if currY < old(bestY) then [Improvement(currX[..], currY, neighbors)] else []
    {
      TourEdgesPresent(currX[..], nCities, distances);
      var r := MeasureHamiltonian(currX[..], distances);
      currY := r.value;
      if currY < bestY {
        KeepBest();
      }
    }

    /** The improving branch of `calc`: a copy of the current tour becomes the best and is logged. */
    method KeepBest()
      requires Inv() && currY == CycleLength(currX[..], distances) && currY < bestY
      modifies this`bestX, this`bestY, this`bestSolLog
      ensures Inv()
      ensures fresh(bestX) && bestX[..] == currX[..] && bestY == currY
      ensures bestSolLog == old(bestSolLog) + [LogEntry(bestX, bestY, neighbors)]
      ensures View(bestSolLog) == old(View(bestSolLog)) + [Improvement(currX[..], currY, neighbors)]
    {
      ghost var logged := View(bestSolLog);
      bestX := Copy(currX);
      bestY := currY;
      assert View(bestSolLog) == logged;
      LogBest();
      ViewAppend(old(bestSolLog), LogEntry(bestX, bestY, neighbors));
    }

    /**
     * The first half of the loop body in `destroy_and_repair`: write one candidate at the
     * neighbourhood and `calc`. `tr` is the round so far; the log reads as `base` followed by
     * the improvements of `tr`.
     */
    method Repair(perm: seq<int>, ghost base: seq<Improvement>, ghost tr: Trial)
      requires Valid() && ValidPicks(neighbors, nCities)
      requires bestX[..] == tr.tour && bestY == tr.y && View(bestSolLog) == base + tr.found
      requires multiset(perm) == multiset(ReadAt(tr.tour, neighbors))
      modifies this`currY, this`bestX, this`bestY, this`bestSolLog, currX
      ensures Inv() && currX == old(currX)
      ensures |perm| == |neighbors| && currX[..] == Place(tr.tour, neighbors, perm) &&
              currY == CycleLength(currX[..], distances)
      ensures neighbors == old(neighbors) && nIter == old(nIter)
      ensures var r := Step(tr, nCities, distances, neighbors, perm);
                bestX[..] == r.tour && bestY == r.y && View(bestSolLog) == base + r.found
    {
      RepairKeepsTour(tr.tour, nCities, neighbors, perm);
      ghost var t := Place(tr.tour, neighbors, perm);
      Rewrite(perm);
      assert currX[..] == t;
      assert View(bestSolLog) == base + tr.found;
      Calc();
      StepOutcome(tr, nCities, distances, neighbors, perm, t, currY);
      if currY < tr.y {
        AppendAssociative(base, tr.found, [Improvement(t, currY, neighbors)]);
      }
    }

    /** Writes the candidate `perm` into the current tour at the neighbourhood's positions. */
    method Rewrite(perm: seq<int>)
      requires Valid() && ValidPicks(neighbors, nCities)
      requires |perm| == |neighbors| && multiset(perm) == multiset(ReadAt(currX[..], neighbors))
      modifies currX
      ensures Inv() && currX[..] == Place(old(currX[..]), neighbors, perm)
      ensures bestX[..] == old(bestX[..]) && View(bestSolLog) == old(View(bestSolLog))
    {
      RepairKeepsTour(currX[..], nCities, neighbors, perm);
      WriteAt(currX, neighbors, perm);
    }

    /**
     * The loop body in `destroy_and_repair`: `Repair`, then reset the current tour to a copy of
     * the best one and count the iteration.
     */
    method TryCandidate(perm: seq<int>, ghost base: seq<Improvement>, ghost tr: Trial)
      requires Valid() && nIter.Some? && ValidPicks(neighbors, nCities)
      requires bestX[..] == tr.tour && bestY == tr.y && View(bestSolLog) == base + tr.found
      requires multiset(perm) == multiset(ReadAt(tr.tour, neighbors))
      modifies this`currX, this`currY, this`bestX, this`bestY, this`bestSolLog, this`nIter, currX
      ensures Valid() && fresh(currX)
      ensures neighbors == old(neighbors) && nIter.Some? && nIter.value == old(nIter.value) + 1
      ensures var r := Step(tr, nCities, distances, neighbors, perm);
                bestX[..] == r.tour && bestY == r.y && View(bestSolLog) == base + r.found
    {
      Repair(perm, base, tr);
      Reset();
      nIter := Some(nIter.value + 1);
    }

    /** `self.curr_x, self.curr_y = self.best_x.copy(), self.best_y`. */
    method Reset()
      requires Inv()
      modifies this`currX, this`currY
      ensures Valid() && fresh(currX)
      ensures bestX[..] == old(bestX[..]) && View(bestSolLog) == old(View(bestSolLog))
    {
      currX := Copy(bestX);
      currY := bestY;
    }

    /**
     * The loop of `destroy_and_repair` over the candidates `cands` for the current neighbourhood:
     * the round `Sweep` describes.
     */
    method TryAll(cands: seq<seq<int>>, ghost t0: seq<int>, ghost base: seq<Improvement>)
      requires Valid() && nIter.Some? && ValidPicks(neighbors, nCities)
      requires bestX[..] == t0 && View(bestSolLog) == base
      requires RoundInput(t0, nCities, distances, neighbors, cands)
      modifies this, currX
      ensures Valid() && neighbors == old(neighbors)
      ensures fresh(currX) || currX == old(currX)
      ensures var r := Sweep(t0, nCities, distances, neighbors, cands);
              bestX[..] == r.tour && bestY == r.y && nIter.Some? && nIter.value == old(nIter.value) + |cands| &&
              View(bestSolLog) == base + r.found
    {
      ghost var iter0 := nIter.value;
      RoundInputPrefix(t0, nCities, distances, neighbors, cands, 0);
      ghost var tr := Sweep(t0, nCities, distances, neighbors, cands[..0]);
      assert cands[..0] == [];
      assert tr.found == [] && tr.tour == t0;
      var c := 0;
      while c < |cands|
        invariant 0 <= c <= |cands|
        invariant Valid() && nIter.Some? && neighbors == old(neighbors)
        invariant fresh(currX) || currX == old(currX)
        invariant RoundInput(t0, nCities, distances, neighbors, cands[..c])
        invariant tr == Sweep(t0, nCities, distances, neighbors, cands[..c])
        invariant bestX[..] == tr.tour && bestY == tr.y && nIter.value == iter0 + c
        invariant View(bestSolLog) == base + tr.found
      {
        SweepStep(t0, nCities, distances, neighbors, cands, c);
        TryCandidate(cands[c], base, tr);
        tr := Step(tr, nCities, distances, neighbors, cands[c]);
        c := c + 1;
      }
      assert cands[..c] == cands;
    }

    /**
     * `destroy_and_repair`: `picks` are the `size` positions drawn from `1 .. n_cities - 1` and
     * `draws` the shuffles of the values there that the random source supplies. Requires `lns`
     * to have set the iteration counter.
     */
    method DestroyAndRepair(size: nat, maxIter: int, picks: seq<int>, draws: seq<seq<int>>)
      requires Valid() && nIter.Some?
      requires |picks| == size && ValidPicks(picks, nCities)
      requires DrawsOk(draws, ReadAt(currX[..], picks), maxIter)
      modifies this, currX
      ensures Valid() && neighbors == picks
      ensures fresh(currX) || currX == old(currX)
      ensures var cands := Candidates(ReadAt(old(currX[..]), picks), maxIter, draws);
              RoundInput(old(bestX[..]), nCities, distances, picks, cands) &&
              var r := Sweep(old(bestX[..]), nCities, distances, picks, cands);
              bestX[..] == r.tour && bestY == r.y && nIter.Some? && nIter.value == old(nIter.value) + r.tried &&
              View(bestSolLog) == old(View(bestSolLog)) + r.found
    {
      ghost var t0 := bestX[..];
      ghost var base := View(bestSolLog);
      neighbors := picks;
      assert View(bestSolLog) == base;
      var vals := ReadAt(currX[..], picks);
      assert vals == ReadAt(t0, picks) && vals == ReadAt(old(currX[..]), picks);
      var cands := NodePermutations(vals, maxIter, draws);
      CandidatesRearrange(vals, maxIter, draws);
      forall p | p in cands
        ensures multiset(p) == multiset(ReadAt(t0, picks))
      {
      }
      TryAll(cands, t0, base);
    }

    /** One round of `lns` from where the search stands: the step `Advance` describes. */
    method Round(size: nat, picks: seq<int>, shuffle: Shuffler, r: nat,
                 ghost base: seq<Improvement>, ghost acc: Trial) returns (ghost next: Trial)
      requires Valid() && nIter.Some?
      requires |picks| == size && ValidPicks(picks, nCities) && ShufflerOk(shuffle, DefaultMaxIter)
      requires bestX[..] == acc.tour && bestY == acc.y && View(bestSolLog) == base + acc.found
      modifies this, currX
      ensures Valid() && nIter.Some? && nIter.value + acc.tried == old(nIter.value) + next.tried
      ensures fresh(currX) || currX == old(currX)
      ensures next == Advance(acc, nCities, distances, picks, shuffle, r)
      ensures bestX[..] == next.tour && bestY == next.y && View(bestSolLog) == base + next.found
    {
      var vals := ReadAt(currX[..], picks);
      ReadAtDistinct(currX[..], nCities, picks);
      next := Advance(acc, nCities, distances, picks, shuffle, r);
      DestroyAndRepair(size, DefaultMaxIter, picks, shuffle(r, vals));
      ghost var sweep := Sweep(acc.tour, nCities, distances, picks, RoundCandidates(acc.tour, nCities, picks, shuffle, r));
      AppendAssociative(base, acc.found, sweep.found);
    }

    /**
     * `lns`: sets the iteration counter to 0 unless it already runs, then `rounds` rounds of
     * `destroy_and_repair(size=neighborhoodSize)` with the default `max_iter`; round `r` draws
     * the positions `picks[r]` and the shuffles `shuffle(r, values)`.
     */
    method Lns(rounds: int, neighborhoodSize: nat, picks: seq<seq<int>>, shuffle: Shuffler)
      requires Valid()
      requires RoundPicks(picks, nCities, neighborhoodSize, if rounds < 0 then 0 else rounds)
      requires ShufflerOk(shuffle, DefaultMaxIter)
      modifies this, currX
      ensures Valid() && nIter.Some? && (fresh(currX) || currX == old(currX))
      ensures var r := Run(old(bestX[..]), nCities, distances, neighborhoodSize, picks, shuffle, if rounds < 0 then 0 else rounds);
              bestX[..] == r.tour && bestY == r.y && View(bestSolLog) == old(View(bestSolLog)) + r.found &&
              nIter.value == (if old(nIter).Some? then old(nIter.value) else 0) + r.tried &&
              Improves(old(bestX[..]), nCities, distances, r)
      ensures rounds <= 0 ==> bestX[..] == old(bestX[..]) && bestY == old(bestY) && View(bestSolLog) == old(View(bestSolLog))
    {
      if nIter.None? {
        nIter := Some(0);
      }
      Rounds(rounds, neighborhoodSize, picks, shuffle);
      RunImproves(old(bestX[..]), nCities, distances, neighborhoodSize, picks, shuffle, if rounds < 0 then 0 else rounds);
    }

    /** The loop of `lns`: round `i` for each `i` in `range(rounds)`. */
    method Rounds(rounds: int, neighborhoodSize: nat, picks: seq<seq<int>>, shuffle: Shuffler)
      requires Valid() && nIter.Some?
      requires RoundPicks(picks, nCities, neighborhoodSize, if rounds < 0 then 0 else rounds)
      requires ShufflerOk(shuffle, DefaultMaxIter)
      modifies this, currX
      ensures Valid() && nIter.Some? && (fresh(currX) || currX == old(currX))
      ensures var r := Run(old(bestX[..]), nCities, distances, neighborhoodSize, picks, shuffle, if rounds < 0 then 0 else rounds);
              bestX[..] == r.tour && bestY == r.y && View(bestSolLog) == old(View(bestSolLog)) + r.found &&
              nIter.value == old(nIter.value) + r.tried
    {
      ghost var t0 := bestX[..];
      ghost var base := View(bestSolLog);
      ghost var iter0 := nIter.value;
      ghost var count: nat := if rounds < 0 then 0 else rounds;
      ghost var acc := Trial(t0, bestY, [], 0);
      ghost var final := Run(t0, nCities, distances, neighborhoodSize, picks, shuffle, count);
      var i := 0;
      while i < rounds
        invariant 0 <= i <= count
        invariant Valid() && nIter.Some?
        invariant fresh(currX) || currX == old(currX)
        invariant IsTour(acc.tour, nCities) && RunFrom(acc, nCities, distances, neighborhoodSize, picks, shuffle, i, count) == final
        invariant bestX[..] == acc.tour && bestY == acc.y && nIter.value == iter0 + acc.tried
        invariant View(bestSolLog) == base + acc.found
      {
        ghost var prev := acc;
        acc := Round(neighborhoodSize, picks[i], shuffle, i, base, acc);
        RunFromStep(prev, acc, nCities, distances, neighborhoodSize, picks, shuffle, i, count);
        i := i + 1;
      }
    }
  }
}
