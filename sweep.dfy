/** The topology sweep: every unordered pair of available CPUs probed once, the
    result stored under both orders of the pair's indices. */
module Sweep {
  import opened Latency

  /** A key of the latency map: two indices into the CPU list (not CPU ids). */
  type Pair = (nat, nat)

  type LatencyMap = map<Pair, Nanos>

  /** Lexicographic order on index pairs. */
  predicate LexLess(p: Pair, q: Pair)
  {
    p.0 < q.0 || (p.0 == q.0 && p.1 < q.1)
  }

  ghost predicate LexSorted(s: seq<Pair>)
  {
    forall a, b :: 0 <= a < b < |s| ==> LexLess(s[a], s[b])
  }

  /** Probes made by the inner loop for outer index `i` before it reaches `j`:
      (i, i+1), ..., (i, j-1). */
  function RowOrder(i: nat, j: nat): (r: seq<Pair>)
    decreases j
  {
    if j <= i + 1 then [] else RowOrder(i, j - 1) + [(i, j - 1)]
  }

  /** Probes made by the first `i` iterations of the outer loop over `n` CPUs. */
  function SweepOrder(i: nat, n: nat): (r: seq<Pair>)
  {
    if i == 0 then [] else SweepOrder(i - 1, n) + RowOrder(i - 1, n)
  }

  /** The value reported for the pair of CPU indices i < j: the responder is
      pinned to `cpus[i]`, the initiator to `cpus[j]`. */
  function PairLatency(cpus: seq<int>, timer: BatchTimer, nsamples: int, i: nat, j: nat): (r: Nanos)
    requires i < j < |cpus|
  {
    OneWay(BatchMin(timer, cpus[i], cpus[j], nsamples))
  }

  /** Has the pair lo < hi been probed once the sweep has reached outer index `i`
      and inner index `j`? */
  predicate Visited(i: nat, j: nat, lo: nat, hi: nat)
  {
    lo < i || (lo == i && hi < j)
  }

  /** `data` holds exactly the pairs probed before (i, j), each under both orders
      of its indices and with its own latency. */
  ghost predicate Progress(data: LatencyMap, cpus: seq<int>, timer: BatchTimer, nsamples: int, i: nat, j: nat)
  {
    && (forall a: nat, b: nat :: (a, b) in data <==>
          (a < b < |cpus| && Visited(i, j, a, b)) || (b < a < |cpus| && Visited(i, j, b, a)))
    && (forall a: nat, b: nat :: a < b < |cpus| && Visited(i, j, a, b) ==>
          data[(a, b)] == PairLatency(cpus, timer, nsamples, a, b) &&
          data[(b, a)] == PairLatency(cpus, timer, nsamples, a, b))
  }

  /** The finished matrix: every off-diagonal index pair and nothing else, each
      entry the latency of its unordered pair. */
  ghost predicate LatencyMatrix(data: LatencyMap, cpus: seq<int>, timer: BatchTimer, nsamples: int)
  {
    && (forall a: nat, b: nat :: (a, b) in data <==> a != b && a < |cpus| && b < |cpus|)
    && (forall a: nat, b: nat :: a < b < |cpus| ==>
          data[(a, b)] == PairLatency(cpus, timer, nsamples, a, b) &&
          data[(b, a)] == PairLatency(cpus, timer, nsamples, a, b))
  }

  /** One iteration of the inner loop: measure the pair (i, j) and store the
      one-way figure under (i, j) and (j, i), leaving every other entry alone. */
  method ProbePair(cpus: seq<int>, timer: BatchTimer, nsamples: int, i: nat, j: nat, data: LatencyMap)
    returns (data': LatencyMap)
    requires i < j < |cpus|
    ensures data'.Keys == data.Keys + {(i, j), (j, i)}
    ensures data'[(i, j)] == PairLatency(cpus, timer, nsamples, i, j)
    ensures data'[(j, i)] == PairLatency(cpus, timer, nsamples, i, j)
    ensures forall k :: k in data && k != (i, j) && k != (j, i) ==> data'[k] == data[k]
  {
    var rtt := MeasurePair(timer, cpus[i], cpus[j], nsamples);
    data' := data[(i, j) := OneWay(rtt)];
    data' := data'[(j, i) := OneWay(rtt)];
  }

  /** The nested sweep over all index pairs i < j. The ghost `trace` records the
      pairs in the order they are probed; the program itself keeps no such list. */
  method SweepAll(cpus: seq<int>, timer: BatchTimer, nsamples: int)
    returns (data: LatencyMap, ghost trace: seq<Pair>)
    ensures trace == SweepOrder(|cpus|, |cpus|)
    ensures LatencyMatrix(data, cpus, timer, nsamples)
  {
    var n := |cpus|;
    data, trace := map[], [];
    for i: nat := 0 to n
      invariant trace == SweepOrder(i, n)
      invariant Progress(data, cpus, timer, nsamples, i, i + 1)
    {
      data, trace := SweepRow(cpus, timer, nsamples, i, data, trace);
    }
    ProgressComplete(data, cpus, timer, nsamples);
  }

  /** The inner loop for outer index `i`: probes (i, i+1), ..., (i, n-1) in turn. */
  method SweepRow(cpus: seq<int>, timer: BatchTimer, nsamples: int, i: nat, data: LatencyMap, ghost trace: seq<Pair>)
    returns (data': LatencyMap, ghost trace': seq<Pair>)
    requires i < |cpus|
    requires Progress(data, cpus, timer, nsamples, i, i + 1)
    ensures Progress(data', cpus, timer, nsamples, i + 1, i + 2)
    ensures trace' == trace + RowOrder(i, |cpus|)
  {
    var n := |cpus|;
    data', trace' := data, trace;
    for j: nat := i + 1 to n
      invariant trace' == trace + RowOrder(i, j)
      invariant Progress(data', cpus, timer, nsamples, i, j)
    {
      var next := ProbePair(cpus, timer, nsamples, i, j, data');
      ProgressAfterProbe(data', next, cpus, timer, nsamples, i, j);
      data' := next;
      assert RowOrder(i, j + 1) == RowOrder(i, j) + [(i, j)];
      trace' := trace' + [(i, j)];
    }
    ProgressNextRow(data', cpus, timer, nsamples, i);
  }

  lemma ProgressAfterProbe(data: LatencyMap, data': LatencyMap, cpus: seq<int>, timer: BatchTimer, nsamples: int, i: nat, j: nat)
    requires i < j < |cpus|
    requires Progress(data, cpus, timer, nsamples, i, j)
    requires data'.Keys == data.Keys + {(i, j), (j, i)}
    requires data'[(i, j)] == PairLatency(cpus, timer, nsamples, i, j)
    requires data'[(j, i)] == PairLatency(cpus, timer, nsamples, i, j)
    requires forall k :: k in data && k != (i, j) && k != (j, i) ==> data'[k] == data[k]
    ensures Progress(data', cpus, timer, nsamples, i, j + 1)
  {
    forall a: nat, b: nat
      ensures (a, b) in data' <==>
        (a < b < |cpus| && Visited(i, j + 1, a, b)) || (b < a < |cpus| && Visited(i, j + 1, b, a))
    {
      if (a, b) != (i, j) && (a, b) != (j, i) {
        assert (a, b) in data' <==> (a, b) in data;
      }
    }
    forall a: nat, b: nat | a < b < |cpus| && Visited(i, j + 1, a, b)
      ensures data'[(a, b)] == PairLatency(cpus, timer, nsamples, a, b)
      ensures data'[(b, a)] == PairLatency(cpus, timer, nsamples, a, b)
    {
      if (a, b) != (i, j) {
        assert Visited(i, j, a, b);
      }
    }
  }

  lemma ProgressNextRow(data: LatencyMap, cpus: seq<int>, timer: BatchTimer, nsamples: int, i: nat)
    requires i < |cpus|
    requires Progress(data, cpus, timer, nsamples, i, |cpus|)
    ensures Progress(data, cpus, timer, nsamples, i + 1, i + 2)
  {
  }

  lemma ProgressComplete(data: LatencyMap, cpus: seq<int>, timer: BatchTimer, nsamples: int)
    requires Progress(data, cpus, timer, nsamples, |cpus|, |cpus| + 1)
    ensures LatencyMatrix(data, cpus, timer, nsamples)
  {
  }

  /** The inner loop for outer index `i` probes (i, i+1), ..., (i, j-1) in that order. */
  lemma {:induction false} RowOrderIsRow(i: nat, j: nat)
    ensures |RowOrder(i, j)| == if j > i then j - i - 1 else 0
    ensures forall a :: 0 <= a < |RowOrder(i, j)| ==> RowOrder(i, j)[a] == (i, i + 1 + a)
    decreases j
  {
    if j > i + 1 {
      RowOrderIsRow(i, j - 1);
    }
  }

  /** The pairs probed by the inner loop for `i` up to `j`. */
  lemma RowOrderMembers(i: nat, j: nat)
    ensures forall p :: p in RowOrder(i, j) <==> p.0 == i && i < p.1 < j
  {
    RowOrderIsRow(i, j);
    var row := RowOrder(i, j);
    forall p
      ensures p in row <==> p.0 == i && i < p.1 < j
    {
      if p in row {
        var a :| 0 <= a < |row| && row[a] == p;
      }
      if p.0 == i && i < p.1 < j {
        assert row[p.1 - i - 1] == p;
      }
    }
  }

  /** The first `i` outer iterations make i * (2n - i - 1) / 2 probes. */
  lemma {:induction false} SweepOrderLength(i: nat, n: nat)
    requires i <= n
    ensures 2 * |SweepOrder(i, n)| == i * (2 * n - i - 1)
  {
    if i > 0 {
      SweepOrderLength(i - 1, n);
      RowOrderIsRow(i - 1, n);
      assert |SweepOrder(i, n)| == |SweepOrder(i - 1, n)| + (n - i);
      assert (i - 1) * (2 * n - i) + 2 * (n - i) == i * (2 * n - i - 1);
    }
  }

  /** The first `i` outer iterations probe exactly the pairs lo < hi < n with lo < i. */
  lemma {:induction false} SweepOrderMembers(i: nat, n: nat)
    ensures forall p :: p in SweepOrder(i, n) <==> p.0 < i && p.0 < p.1 < n
  {
    if i > 0 {
      SweepOrderMembers(i - 1, n);
      RowOrderMembers(i - 1, n);
      var prev, row := SweepOrder(i - 1, n), RowOrder(i - 1, n);
      assert SweepOrder(i, n) == prev + row;
      forall p: Pair
        ensures p in prev + row <==> p.0 < i && p.0 < p.1 < n
      {
        assert p in prev + row <==> p in prev || p in row;
      }
    }
  }

  /** The probes come in strictly increasing lexicographic order. */
  lemma {:induction false} SweepOrderLexSorted(i: nat, n: nat)
    ensures LexSorted(SweepOrder(i, n))
  {
    if i > 0 {
      var prev, row := SweepOrder(i - 1, n), RowOrder(i - 1, n);
      SweepOrderLexSorted(i - 1, n);
      RowOrderIsRow(i - 1, n);
      SweepOrderMembers(i - 1, n);
      forall a, b | 0 <= a < |prev| && 0 <= b < |row|
        ensures LexLess(prev[a], row[b])
      {
        assert prev[a] in prev;
      }
      LexSortedConcat(prev, row);
    }
  }

  lemma LexSortedConcat(s: seq<Pair>, t: seq<Pair>)
    requires LexSorted(s)
    requires forall a, b :: 0 <= a < b < |t| ==> LexLess(t[a], t[b])
    requires forall a, b :: 0 <= a < |s| && 0 <= b < |t| ==> LexLess(s[a], t[b])
    ensures LexSorted(s + t)
  {
    forall a, b | 0 <= a < b < |s + t|
      ensures LexLess((s + t)[a], (s + t)[b])
    {
      if b < |s| {
        assert (s + t)[a] == s[a] && (s + t)[b] == s[b];
      } else if a >= |s| {
        assert (s + t)[a] == t[a - |s|] && (s + t)[b] == t[b - |s|];
      } else {
        assert (s + t)[a] == s[a] && (s + t)[b] == t[b - |s|];
      }
    }
  }

  /** The sweep over n CPUs probes every pair of indices lo < hi < n, each exactly
      once (no two probes equal, as they come in strictly increasing lexicographic
      order), n (n - 1) / 2 probes in all. */
  lemma SweepProbesEachPairOnce(n: nat)
    ensures |SweepOrder(n, n)| == n * (n - 1) / 2
    ensures forall p :: p in SweepOrder(n, n) <==> p.0 < p.1 < n
    ensures forall a, b :: 0 <= a < b < |SweepOrder(n, n)| ==>
      LexLess(SweepOrder(n, n)[a], SweepOrder(n, n)[b]) && SweepOrder(n, n)[a] != SweepOrder(n, n)[b]
  {
    SweepOrderLength(n, n);
    SweepOrderMembers(n, n);
    SweepOrderLexSorted(n, n);
  }

  /** The finished matrix is symmetric and has nothing on its diagonal. */
  lemma MatrixSymmetric(data: LatencyMap, cpus: seq<int>, timer: BatchTimer, nsamples: int)
    requires LatencyMatrix(data, cpus, timer, nsamples)
    ensures forall k :: k in data ==> (k.1, k.0) in data && data[(k.1, k.0)] == data[k]
    ensures forall a: nat :: (a, a) !in data
  {
    forall k | k in data
      ensures (k.1, k.0) in data && data[(k.1, k.0)] == data[k]
    {
      var (a, b) := k;
      assert (a, b) in data;
      if a < b {
        assert data[(a, b)] == PairLatency(cpus, timer, nsamples, a, b);
      } else {
        assert data[(b, a)] == PairLatency(cpus, timer, nsamples, b, a);
      }
    }
  }
}
