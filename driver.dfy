/** The whole measurement run, with the argument parsing, the affinity system
    calls, the two-thread handshake and the text output taken away. */
module C2clat {
  import opened Affinity
  import opened Latency
  import opened Sweep
  import opened Report

  /** Enumerate the CPUs of `mask`, probe every pair of them with `nsamples`
      batches each, and read back the n x n table that is printed. The ghost
      `probes` records the order in which the pairs are probed. */
  method MeasureLatencies(mask: CpuMask, timer: BatchTimer, nsamples: int)
    returns (cpus: seq<int>, ghost probes: seq<Pair>, table: seq<seq<Nanos>>)
    ensures StrictlyIncreasing(cpus)
    ensures forall c :: c in cpus <==> 0 <= c < CpuSetSize && mask[c]
    ensures |probes| == |cpus| * (|cpus| - 1) / 2
    ensures forall p :: p in probes <==> p.0 < p.1 < |cpus|
    ensures forall a, b :: 0 <= a < b < |probes| ==> LexLess(probes[a], probes[b])
    ensures |table| == |cpus| && forall i :: 0 <= i < |cpus| ==> |table[i]| == |cpus|
    ensures forall i :: 0 <= i < |cpus| ==> table[i][i] == 0
    ensures forall i, j :: 0 <= i < j < |cpus| ==>
      table[i][j] == OneWay(BatchMin(timer, cpus[i], cpus[j], nsamples)) && table[j][i] == table[i][j]
  {
    cpus := AvailableCpus(mask);
    var data;
    data, probes := SweepAll(cpus, timer, nsamples);
    SweepProbesEachPairOnce(|cpus|);
    var data';
    table, data' := ReportTable(|cpus|, data);
    SweptTable(data, cpus, timer, nsamples, table);
  }

  /** Three CPUs are probed as (0, 1), (0, 2), (1, 2), in that order. */
  lemma ThreeCpusProbeOrder()
    ensures SweepOrder(3, 3) == [(0, 1), (0, 2), (1, 2)]
  {
    assert RowOrder(0, 3) == [(0, 1), (0, 2)];
    assert RowOrder(1, 3) == [(1, 2)];
  }
}
