# LNS for the symmetric TSP: a Dafny model

This project models the Large Neighbourhood Search engine of `src/lns_tsp.py`. The engine improves a closed tour of the travelling salesman problem over a distance dictionary.

- `measure_hamiltonian` computes a cycle's length. Each edge is looked up under the key `(min, max)`.
- `node_permutations` lists the candidate orderings of a few values, in one of two ways:
  - every ordering except the input, when there are at most `max_iter` orderings in all;
  - otherwise, `max_iter` random orderings that differ from the input.
- `TSPSolver` holds a current tour, a best tour, their lengths, a log of best solutions and an iteration counter.
  - `destroy_and_repair` draws distinct positions in `1 .. n_cities - 1`.
  - It writes each candidate ordering of the values found there into the current tour, in place.
  - `calc` then keeps the rewritten tour, as a copy, only when it is strictly shorter.
  - After every candidate, the current tour is reset to a copy of the best one.
  - `lns` runs `rounds` such rounds with `max_iter = 1000`.

The model takes the program's imperative form:
- `TSPSolver` is a Dafny class. Its tours are `array<int>`, written in place.
- Each log entry holds the very array that was best when it was logged.
- The methods are proved against value-level specification functions in module `Search`:
  - `Step` is one candidate;
  - `Sweep` is one round;
  - `Advance`, `RunFrom` and `Run` are the rounds of `lns`.
- The proved properties are stated about those functions:
  - the tour stays a permutation anchored at city 0;
  - the best length never increases;
  - the logged lengths strictly decrease;
  - logged tours are never mutated again;
  - the candidate counts are exact.

Modules, one per file:
- `Sequences` (`sequences.dfy`): small facts about sequences.
- `Tables` (`tables.dfy`): the distance dictionary, its sorted key and `n_cities`.
- `Hamiltonian` (`hamiltonian.dfy`): `measure_hamiltonian` and cycle length.
- `Tours` (`tours.dfy`): tours and the rewrite at the chosen positions.
- `Permutations` (`permutations.dfy`): `node_permutations`.
- `Search` (`search.dfy`): rounds as values.
- `Solver` (`solver.dfy`): the `TSPSolver` class.

Distances are exact `real`s. The random sources are parameters:
- the constructor's `order` is the permutation of `1 .. n_cities - 1`;
- `DestroyAndRepair` takes the positions `picks` and the shuffles `draws`;
- `Lns` takes one position list per round and a function `shuffle(round, values)` giving that round's shuffles.

`n_cities` is modelled as the program computes it (`src/lns_tsp.py:45`): the number of distinct first components of the keys.
- For the table the reporting script builds over `m` cities (keys `(i, j)`, `i < j < m`), that count is `m - 1`.
- So city `m - 1` is never part of a tour. `Tables.StandardTableCities` proves this.
- For 4 cities, such a table yields tours over cities `0 .. 2` only.

`lns` always calls `destroy_and_repair` with its default `max_iter = 1000` (`src/lns_tsp.py:78`, `src/lns_tsp.py:96`). The model fixes it at the same value (`Search.DefaultMaxIter`).

## Model

| member | source | states |
|---|---|---|
| Tables.Key | src/lns_tsp.py:16-18 | the lookup key is the edge's two cities in ascending order |
| Tables.KeySymmetric | src/lns_tsp.py:16-18 | both orientations of an edge are looked up under the same key |
| Tables.NumCities | src/lns_tsp.py:45 | `n_cities` counts the distinct first components of the keys; it is 0 exactly for an empty table (`StandardTableCities` gives its value for the reporting script's tables) |
| Tables.StandardTableCities | src/lns_tsp.py:45 | for a table keyed by all `(i, j)`, `i < j < m`, `n_cities` is `m - 1`, the table is complete over `0 .. m - 2`, and `m - 1` is never a first component |
| Hamiltonian.MeasureHamiltonian | src/lns_tsp.py:12-20 | an empty path fails (no last city); a path whose edges are all present gets its cycle length, consecutive edges plus the closing edge; otherwise the lookup fails on the first missing edge in visiting order, with that edge's key |
| Hamiltonian.CycleLength | src/lns_tsp.py:14-19 | the closed path's length: consecutive edges plus the edge back to the start; `MeasureHamiltonian` returns it whenever every edge is present, `PathLengthSum` equates it with the sum of the edge lengths, and `RotationInvariant` and `ReversalInvariant` show that it does not depend on where the cycle starts or which way it runs |
| Hamiltonian.PathLengthSum | src/lns_tsp.py:14-19 | adding the edges one by one gives the sum of the sequence of edge lengths |
| Hamiltonian.RotationInvariant | src/lns_tsp.py:15-19 | every cyclic rotation of a path has all its edges and the same cycle length |
| Hamiltonian.ReversalInvariant | src/lns_tsp.py:15-19 | the reversed path has all its edges and the same cycle length |
| Tours.TourCities | src/lns_tsp.py:47-49 | a tour visits distinct cities, all below `n_cities` |
| Tours.TourEdgesPresent | src/lns_tsp.py:16-19 | on a table complete over its cities, every edge of a tour is present |
| Tours.ReadAt | src/lns_tsp.py:83 | `curr_x[neighboors]` has one value per drawn position, the value at that position, in drawing order |
| Tours.Place | src/lns_tsp.py:85-86 | the write loop keeps the tour's length; `PlaceAt`, `PlaceElsewhere`, `PlaceReadsBack` and `PlaceMultiset` state what it writes and what it leaves |
| Tours.ReadAtDistinct | src/lns_tsp.py:80-83 | the values read at distinct positions of a tour are distinct |
| Tours.PlaceAt | src/lns_tsp.py:85-86 | after the write loop, each chosen position holds its value |
| Tours.PlaceElsewhere | src/lns_tsp.py:85-86 | positions that were not chosen keep their value |
| Tours.PlaceReadsBack | src/lns_tsp.py:83-86 | reading the chosen positions after the write gives exactly the values written |
| Tours.PlaceMultiset | src/lns_tsp.py:83-86 | the write trades the values read at the chosen positions for the values written, as multisets |
| Tours.StartTour | src/lns_tsp.py:47-49 | city 0 followed by a permutation of `1 .. n_cities - 1` is a tour |
| Tours.RepairKeepsTour | src/lns_tsp.py:80-86 | writing a rearrangement of the values read at valid positions leaves a tour with city 0 in front, and the same values at those positions |
| Permutations.Others | src/lns_tsp.py:29 | the filtered list keeps exactly the items that differ from the input |
| Permutations.AllPerms | src/lns_tsp.py:35 | `itertools.permutations` order: the orderings starting at `v[0]`, then at `v[1]`, and so on; `AllPermsLength`, `AllPermsSound`, `AllPermsComplete` and `AllPermsDistinct` state that these are `len(vector)!` rearrangements, every rearrangement among them, each once for distinct values |
| Permutations.AllPermsLength | src/lns_tsp.py:35 | the enumeration has `len(vector)!` items |
| Permutations.AllPermsSound | src/lns_tsp.py:35 | every enumerated item is a rearrangement of the input |
| Permutations.AllPermsComplete | src/lns_tsp.py:35 | every rearrangement of the input is enumerated |
| Permutations.AllPermsDistinct | src/lns_tsp.py:35 | for distinct values no ordering is enumerated twice |
| Permutations.Candidates | src/lns_tsp.py:23-37 | the list `node_permutations` yields, by the test `len(vector)! > max_iter`; `CandidatesRearrange`, `ExhaustiveCandidates` and `SampledCandidates` state its contents in each case |
| Permutations.NodePermutations | src/lns_tsp.py:23-37 | the strategy is chosen by `len(vector)! > max_iter`, and the result is the candidate list `Candidates` |
| Permutations.SampleOthers | src/lns_tsp.py:26-33 | the sampling loop yields the first `max_iter` draws that differ from the input; with `max_iter < 1`, only the first draw is tested |
| Permutations.ListOthers | src/lns_tsp.py:34-37 | the enumeration loop yields every enumerated ordering except the input, in order |
| Permutations.CandidatesRearrange | src/lns_tsp.py:25-37 | no candidate equals the input, and every candidate is a rearrangement of it |
| Permutations.OthersComplete | src/lns_tsp.py:34-37 | enumeration yields every rearrangement other than the input |
| Permutations.OthersCount | src/lns_tsp.py:34-37 | for distinct values, enumeration yields `len(vector)! - 1` distinct orderings |
| Permutations.OthersTrivial | src/lns_tsp.py:34-37 | for one value or none, enumeration yields nothing |
| Permutations.ExhaustiveCandidates | src/lns_tsp.py:25-37 | when `len(vector)! <= max_iter`, every non-identity ordering is yielded; for distinct values each exactly once, `len(vector)! - 1` in all; for length 0 or 1, nothing |
| Permutations.SampledCandidates | src/lns_tsp.py:25-33 | when `len(vector)! > max_iter >= 1`, exactly `max_iter` accepted draws are yielded, the first ones in draw order, repeats included |
| Search.Step | src/lns_tsp.py:84-89 | one candidate keeps the best tour a tour, keeps the multiset of values at the positions, and counts one trial |
| Search.StepImproves | src/lns_tsp.py:66-76 | a candidate is kept, and logged with the positions, only when strictly shorter, so the search still improves on its start |
| Search.StepTagged | src/lns_tsp.py:56-64 | a candidate logs at most one improvement, tagged with the round's positions |
| Search.Sweep | src/lns_tsp.py:84-89 | a round tries every candidate, counts them, and keeps the tour a tour |
| Search.SweepImproves | src/lns_tsp.py:84-89 | a round ends no longer than its start, through strictly decreasing logged lengths, at most one per candidate, each tagged with the round's positions |
| Search.ImprovesChain | src/lns_tsp.py:95-96 | improvements of consecutive rounds concatenate into one strictly decreasing log |
| Search.RoundImproves | src/lns_tsp.py:95-96 | a round continuing an improving search keeps it improving |
| Search.RoundCandidates | src/lns_tsp.py:83-84 | a round's candidates are rearrangements of the values at its positions, never those values in their original order |
| Search.Advance | src/lns_tsp.py:95-96 | a round of `lns` leaves a tour |
| Search.AdvanceCount | src/lns_tsp.py:25-37 | a round of `lns` with `k` positions tries `k! - 1` candidates when `k! <= 1000`, and exactly 1000 otherwise |
| Search.AdvanceImproves | src/lns_tsp.py:91-96 | a round of `lns` continuing an improving search keeps it improving |
| Search.RunFromStep | src/lns_tsp.py:95-96 | running the rounds from `r` on is one round, then the rounds from `r + 1` on, from where that round left off |
| Search.RunFromImproves | src/lns_tsp.py:95-96 | any number of further rounds keep an improving search improving |
| Search.RunImproves | src/lns_tsp.py:91-96 | `lns` never lengthens the tour: it ends no longer than its start, reached through strictly decreasing logged lengths, the last of them the final tour |
| Solver.Copy | src/lns_tsp.py:74 | `copy()` gives a fresh array with the same contents |
| Solver.WriteAt | src/lns_tsp.py:85-86 | the in-place write loop leaves the tour `Place` describes |
| Solver.TSPSolver.constructor | src/lns_tsp.py:43-54 | the current tour is `[0]` followed by the supplied permutation of `1 .. n_cities - 1`; the best tour is a separate copy; the best length is the tour's length; both logs are empty; `n_cities` is the number of distinct first components |
| Solver.TSPSolver.LogBest | src/lns_tsp.py:56-64 | appends the best array itself, its length and the current positions |
| Solver.TSPSolver.Calc | src/lns_tsp.py:66-76 | sets the current length to the tour's length; when it is strictly below the best length, the best tour becomes a fresh copy and is logged; otherwise best and log are untouched; read as values, the log gains exactly that one entry or nothing; the current array is never one the log holds |
| Solver.TSPSolver.KeepBest | src/lns_tsp.py:74-76 | the best tour becomes a fresh copy of the current one, with its length, and is logged; read as values, the log gains exactly that entry |
| Solver.TSPSolver.Rewrite | src/lns_tsp.py:85-86 | the in-place write leaves the current tour a tour equal to `Place` of the old one, and touches neither the best tour nor the log |
| Solver.TSPSolver.Repair | src/lns_tsp.py:84-87 | writing one candidate and evaluating it leaves the current array holding the written tour `Place(tr.tour, neighbors, perm)` with `curr_y` its length, and moves best tour, best length and log exactly as `Step` says |
| Solver.TSPSolver.TryCandidate | src/lns_tsp.py:84-89 | after each candidate the current tour is a fresh copy of the best, the lengths agree, and `n_iter` grew by one |
| Solver.TSPSolver.Reset | src/lns_tsp.py:88 | the current tour becomes a fresh copy of the best one, with the best length; best tour and log stay as they were |
| Solver.TSPSolver.TryAll | src/lns_tsp.py:84-89 | the candidate loop ends in the state `Sweep` describes; `n_iter` grew by the number of candidates; the log gained exactly the round's improvements |
| Solver.TSPSolver.DestroyAndRepair | src/lns_tsp.py:78-89 | records the drawn positions; its candidates are `node_permutations` of the values there; best tour, length and log end as `Sweep` says; `n_iter` grows by exactly the candidates tried; the current tour equals the best again |
| Solver.TSPSolver.Round | src/lns_tsp.py:95-96 | one iteration of the `lns` loop moves best tour, best length, log and `n_iter` exactly as the round `Advance` describes |
| Solver.TSPSolver.Rounds | src/lns_tsp.py:95-96 | the `lns` loop ends in the state `Run` describes for `rounds` rounds, none if `rounds <= 0`; the log gains exactly the run's improvements and `n_iter` the candidates tried; the current array is the old one or a fresh one |
| Solver.TSPSolver.Lns | src/lns_tsp.py:91-96 | `n_iter` starts at 0 only if unset; the state after the loop is `Run` over `rounds` rounds (none if `rounds <= 0`); the path to it is strictly improving in the log; the best length never exceeds the starting one; with no rounds nothing changes; the current array is the old one or a fresh one, so the solver can be called again |

## Left out

- `dist` (`src/lns_tsp.py:7-9`), the floating-point Euclidean distance, is not part of this model. Distances are exact `real`s, so float rounding in the sums and in the `<` comparison of `calc` is not captured.
- Randomness (`np.random.permutation`, `np.random.choice`) is modelled as supplied sequences and functions, with preconditions on them. No distributions are modelled:
  - the positions are distinct and in `[1, n_cities)`;
  - every shuffle is a rearrangement of the values.
- The `ValueError` that `np.random.choice` raises when `size > n_cities - 1` is a precondition (`ValidPicks` with `|picks| == size`).
- The sampling loop of `node_permutations` is modelled on a finite draw sequence. `Supply` requires at least one draw, and `max_iter` draws that differ from the input, so a loop that never ends is not captured. One such loop needs no bad luck: `node_permutations([7, 7], 1)` samples because `2! > 1`, every draw equals the input, and the counter never grows. `destroy_and_repair` never reaches this case: the values it reads sit at distinct positions of a tour, so they are distinct (`Tours.ReadAtDistinct`).
- The enumeration order of `itertools.permutations` is written out, but only the set of orderings and their number are stated.
- The timestamp in `log_best` is omitted from `LogEntry`, and so are the `print` and the `verbose` flag of `calc`. These are wall-clock and console effects.
- `KeyError` on a missing edge is modelled only by `Hamiltonian.MeasureHamiltonian`. The solver requires a table complete over its `n_cities >= 2` cities, where no lookup fails. `CycleLength` counts a missing edge as 0, but it is consulted only on such tables.
- `AttributeError` cases are not modelled:
  - calling `destroy_and_repair` before `lns` has set `n_iter` is excluded by a precondition;
  - `log_best` reading `neighboors` before the first `destroy_and_repair` cannot happen in the model, because the constructor sets `neighbors` to `[]`.
- `all_sol_log` is never written by the source. The model keeps the field and states that it stays empty.
- The generator of `node_permutations` is modelled as the list it yields. The consumer neither changes the values read nor touches the random source while iterating.
- Solver.TSPSolver.Lns: for `rounds <= 0`, the contract states that the log's contents are unchanged (`View`), not that the log is the same sequence of entries.
- Search.Run, Search.RunFrom, Search.RunNext: these carry no contract of their own. Their properties are the lemmas `RunFromStep`, `RunFromImproves` and `RunImproves`, and the loop of `Rounds` is proved against them.
- Solver.TSPSolver.Lns: the Python defaults `rounds=10` and `neighborhood_size=3` (`src/lns_tsp.py:91`) are not modelled; `Lns` takes both arguments explicitly.
- All of `src/plot_tsp.py` is not part of this model: coordinate generation, plotting, file and GIF output, and script execution.
