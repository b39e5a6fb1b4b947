/** The values printed in the latency table, read back from the latency map with
    `std::map::operator[]`, which inserts a zero entry for a missing key. */
module Report {
  import opened Latency
  import opened Sweep

  /** The value a lookup of `k` yields: the stored one, else the default `0ns`. */
  function Stored(data: LatencyMap, k: Pair): (r: Nanos)
  {
    if k in data then data[k] else 0
  }

  /** `data[k]` on a `std::map`: the value under `k` and the map afterwards, which
      has gained `k` with a value-initialised (zero) entry if it was missing. */
  function Lookup(data: LatencyMap, k: Pair): (r: (Nanos, LatencyMap))
    ensures r.1.Keys == data.Keys + {k}
    ensures r.1[k] == r.0
    ensures r.0 == Stored(data, k)
    ensures forall k' :: k' in data ==> r.1[k'] == data[k']
  {
    if k in data then (data[k], data) else (0, data[k := 0])
  }

  /** The table loop over rows i and columns j of an n-CPU table: `table[i][j]` is
      the count printed in cell (i, j); `data'` is the map once every cell was read. */
  method ReportTable(n: nat, data: LatencyMap) returns (table: seq<seq<Nanos>>, data': LatencyMap)
    ensures |table| == n
    ensures forall i :: 0 <= i < n ==> |table[i]| == n
    ensures forall i: nat, j: nat :: i < n && j < n ==> table[i][j] == Stored(data, (i, j))
    ensures forall k :: k in data' <==> k in data || (k.0 < n && k.1 < n)
    ensures forall k :: k in data' ==> data'[k] == Stored(data, k)
  {
    table, data' := [], data;
    for i := 0 to n
      invariant |table| == i
      invariant forall a :: 0 <= a < i ==> |table[a]| == n
      invariant forall a: nat, b: nat :: a < i && b < n ==> table[a][b] == Stored(data, (a, b))
      invariant forall k :: k in data' <==> k in data || (k.0 < i && k.1 < n)
      invariant forall k :: k in data' ==> data'[k] == Stored(data, k)
    {
      var row: seq<Nanos> := [];
      for j := 0 to n
        invariant |row| == j
        invariant forall b: nat :: b < j ==> row[b] == Stored(data, (i, b))
        invariant forall k :: k in data' <==> k in data || (k.0 < i && k.1 < n) || (k.0 == i && k.1 < j)
        invariant forall k :: k in data' ==> data'[k] == Stored(data, k)
      {
        var cell := Lookup(data', (i, j));
        row, data' := row + [cell.0], cell.1;
      }
      table := table + [row];
    }
  }

  /** Reading the table of a finished sweep never fails: the diagonal reads as
      zero, every other cell as its pair's latency, and the table is symmetric. */
  lemma SweptTable(data: LatencyMap, cpus: seq<int>, timer: BatchTimer, nsamples: int, table: seq<seq<Nanos>>)
    requires LatencyMatrix(data, cpus, timer, nsamples)
    requires |table| == |cpus|
    requires forall i :: 0 <= i < |cpus| ==> |table[i]| == |cpus|
    requires forall i: nat, j: nat :: i < |cpus| && j < |cpus| ==> table[i][j] == Stored(data, (i, j))
    ensures forall i :: 0 <= i < |cpus| ==> table[i][i] == 0
    ensures forall i, j :: 0 <= i < j < |cpus| ==>
      table[i][j] == PairLatency(cpus, timer, nsamples, i, j) && table[j][i] == table[i][j]
  {
    forall i | 0 <= i < |cpus|
      ensures table[i][i] == 0
    {
      assert (i, i) !in data;
    }
    forall i, j | 0 <= i < j < |cpus|
      ensures table[i][j] == PairLatency(cpus, timer, nsamples, i, j) && table[j][i] == table[i][j]
    {
      assert table[i][j] == Stored(data, (i, j)) && table[j][i] == Stored(data, (j, i));
    }
  }
}
