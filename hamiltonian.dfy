/** Length of a closed tour through the distance table (`measure_hamiltonian`). */
module Hamiltonian {
  import opened Sequences
  import opened Tables

  /** Why a lookup fails: a key absent from the table, or an empty path (no last city). */
  datatype Fault = MissingEdge(key: (int, int)) | EmptyPath

  datatype Result<T> = Ok(value: T) | Err(fault: Fault)

  /** The position visited after position `i` on a cycle of `n` positions. */
  function Next(n: nat, i: nat): (j: nat)
    requires i < n
    ensures j < n
  {
    if i + 1 < n then i + 1 else 0
  }

  /** Table key of the edge leaving position `i`; the last edge closes the cycle. */
  function Edge(path: seq<int>, i: nat): (int, int)
    requires i < |path|
  {
    Key(path[i], path[Next(|path|, i)])
  }

  /** Every edge of the closed path can be looked up. */
  predicate EdgesPresent(path: seq<int>, d: Table)
  {
    forall i :: 0 <= i < |path| ==> Edge(path, i) in d
  }

  /** Position `k` holds the first edge, in lookup order, that the table lacks. */
  predicate FirstMissing(path: seq<int>, d: Table, k: int)
  {
    0 <= k < |path| && Edge(path, k) !in d &&
    forall j :: 0 <= j < k ==> Edge(path, j) in d
  }

  /** The length of edge `i`, where the table has it. */
  function Weight(path: seq<int>, d: Table, i: nat): real
    requires i < |path|
  {
    if Edge(path, i) in d then d[Edge(path, i)] else 0.0
  }

  /** The first `k` edges added up in path order. */
  function PathLength(path: seq<int>, d: Table, k: nat): real
    requires k <= |path|
    decreases k
  {
    if k == 0 then 0.0 else PathLength(path, d, k - 1) + Weight(path, d, k - 1)
  }

  /**
   * Length of the closed path: every consecutive edge plus the edge back to the start. It is
   * the length `measure_hamiltonian` reports wherever every edge is present.
   */
  function CycleLength(path: seq<int>, d: Table): real
  {
    PathLength(path, d, |path|)
  }

  /** The lengths of the first `k` edges, as a sequence. */
  function Weights(path: seq<int>, d: Table, k: nat): (w: seq<real>)
    requires k <= |path|
    requires forall i :: 0 <= i < k ==> Edge(path, i) in d
    ensures |w| == k
    ensures forall i :: 0 <= i < k ==> w[i] == d[Edge(path, i)]
  {
    seq(k, i requires 0 <= i < k => d[Edge(path, i)])
  }

  /** The lengths added up from the front. */
  function Sum(s: seq<real>): real
  {
    if s == [] then 0.0 else Sum(s[..|s| - 1]) + s[|s| - 1]
  }

  /** Adding the edges one by one is adding up the sequence of their lengths. */
  lemma {:induction false} PathLengthSum(path: seq<int>, d: Table, k: nat)
    requires k <= |path|
    requires forall i :: 0 <= i < k ==> Edge(path, i) in d
    ensures PathLength(path, d, k) == Sum(Weights(path, d, k))
  {
    if k > 0 {
      PathLengthSum(path, d, k - 1);
      assert Weights(path, d, k)[..k - 1] == Weights(path, d, k - 1);
    }
  }

  /**
   * `measure_hamiltonian`: adds up the edges in path order and then the closing edge. A key the
   * table lacks raises (KeyError) at the first such edge; an empty path has no last city (IndexError).
   */
  method MeasureHamiltonian(path: seq<int>, d: Table) returns (r: Result<real>)
    ensures |path| == 0 ==> r == Err(EmptyPath)
    ensures |path| > 0 && EdgesPresent(path, d) ==> r == Ok(CycleLength(path, d))
    ensures |path| > 0 && !EdgesPresent(path, d) ==>
              exists k :: FirstMissing(path, d, k) && r == Err(MissingEdge(Edge(path, k)))
  {
    var total := 0.0;
    var i := 0;
    while i + 1 < |path|
      invariant 0 <= i <= if |path| == 0 then 0 else |path| - 1
      invariant forall j :: 0 <= j < i ==> Edge(path, j) in d
      invariant total == PathLength(path, d, i)
    {
      var key := Key(path[i], path[i + 1]);
      assert key == Edge(path, i);
      if key !in d {
        assert FirstMissing(path, d, i);
        return Err(MissingEdge(key));
      }
      total := total + d[key];
      i := i + 1;
    }
    if |path| == 0 {
      return Err(EmptyPath);
    }
    var key := Key(path[|path| - 1], path[0]);
    assert key == Edge(path, i);
    if key !in d {
      assert FirstMissing(path, d, i);
      return Err(MissingEdge(key));
    }
    total := total + d[key];
    return Ok(total);
  }

  lemma {:induction false} SumConcat(a: seq<real>, b: seq<real>)
    ensures Sum(a + b) == Sum(a) + Sum(b)
  {
    if b != [] {
      var init := b[..|b| - 1];
      assert (a + b)[..|a + b| - 1] == a + init;
      SumConcat(a, init);
    } else {
      assert a + b == a;
    }
  }

  lemma {:induction false} SumReverse(s: seq<real>)
    ensures Sum(Reverse(s)) == Sum(s)
  {
    if s != [] {
      var init := s[..|s| - 1];
      assert Reverse(s) == [s[|s| - 1]] + Reverse(init);
      SumReverse(init);
      SumConcat([s[|s| - 1]], Reverse(init));
      assert Sum([s[|s| - 1]]) == s[|s| - 1] by {
        assert [s[|s| - 1]][..0] == [];
      }
    }
  }

  /** The cycle length does not depend on which city the path starts from. */
  lemma RotationInvariant(path: seq<int>, d: Table, k: nat)
    requires k <= |path|
    requires EdgesPresent(path, d)
    ensures EdgesPresent(Rotate(path, k), d)
    ensures CycleLength(Rotate(path, k), d) == CycleLength(path, d)
  {
    RotationSum(path, d, k);
    PathLengthSum(path, d, |path|);
    PathLengthSum(Rotate(path, k), d, |path|);
  }

  /** The edge lengths of a rotated path are those of the path, rotated. */
  lemma RotatedWeights(path: seq<int>, d: Table, k: nat)
    requires k < |path|
    requires EdgesPresent(path, d)
    ensures EdgesPresent(Rotate(path, k), d)
    ensures Weights(Rotate(path, k), d, |path|) == Weights(path, d, |path|)[k..] + Weights(path, d, |path|)[..k]
  {
    var n := |path|;
    var rot := Rotate(path, k);
    forall i | 0 <= i < n
      ensures Edge(rot, i) == Edge(path, if i + k < n then i + k else i + k - n)
    {
      var src := if i + k < n then i + k else i + k - n;
      assert rot[i] == path[src];
      assert rot[Next(n, i)] == path[Next(n, src)];
    }
    var w := Weights(path, d, n);
    var v := Weights(rot, d, n);
    forall i | 0 <= i < n
      ensures v[i] == (w[k..] + w[..k])[i]
    {
      if i + k < n {
        assert (w[k..] + w[..k])[i] == w[i + k];
      } else {
        assert (w[k..] + w[..k])[i] == w[i + k - n];
      }
    }
  }

  /** Rotating the path rotates its edge lengths, which leaves their sum alone. */
  lemma RotationSum(path: seq<int>, d: Table, k: nat)
    requires k <= |path|
    requires EdgesPresent(path, d)
    ensures EdgesPresent(Rotate(path, k), d)
    ensures Sum(Weights(Rotate(path, k), d, |path|)) == Sum(Weights(path, d, |path|))
  {
    var n := |path|;
    if k == n {
      assert Rotate(path, k) == path;
    } else {
      RotatedWeights(path, d, k);
      var w := Weights(path, d, n);
      SumConcat(w[k..], w[..k]);
      SumConcat(w[..k], w[k..]);
      assert w == w[..k] + w[k..];
    }
  }

  /** The cycle length does not depend on the direction the tour is walked. */
  lemma ReversalInvariant(path: seq<int>, d: Table)
    requires |path| > 0
    requires EdgesPresent(path, d)
    ensures EdgesPresent(Reverse(path), d)
    ensures CycleLength(Reverse(path), d) == CycleLength(path, d)
  {
    ReversalSum(path, d);
    PathLengthSum(path, d, |path|);
    PathLengthSum(Reverse(path), d, |path|);
  }

  /** Reversing the path reverses its open edges and keeps the closing one, which leaves the sum alone. */
  lemma ReversalSum(path: seq<int>, d: Table)
    requires |path| > 0
    requires EdgesPresent(path, d)
    ensures EdgesPresent(Reverse(path), d)
    ensures Sum(Weights(Reverse(path), d, |path|)) == Sum(Weights(path, d, |path|))
  {
    var n := |path|;
    var rev := Reverse(path);
    forall i | 0 <= i < n
      ensures Edge(rev, i) == Edge(path, if i < n - 1 then n - 2 - i else n - 1)
    {
      if i < n - 1 {
        assert rev[i] == path[n - 1 - i] && rev[i + 1] == path[n - 2 - i];
        assert Next(n, n - 2 - i) == n - 1 - i;
      } else {
        assert rev[i] == path[0] && rev[0] == path[n - 1];
      }
    }
    var w := Weights(path, d, n);
    var head := w[..n - 1];
    assert Weights(rev, d, n) == Reverse(head) + [w[n - 1]];
    SumConcat(Reverse(head), [w[n - 1]]);
    SumReverse(head);
    assert [w[n - 1]][..0] == [];
    assert w[..n - 1] == head;
  }
}
