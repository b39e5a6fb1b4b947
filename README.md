# c2clat topology sweep, modelled in Dafny

c2clat measures the one-way latency between every pair of logical CPUs a
process may run on. This model covers the sequential part of the program
around the measurement itself:

- **CPU enumeration**: the affinity mask becomes the list `cpus` of available
  CPU ids, scanned over all `CPU_SETSIZE` (1024) bits (`Affinity`).
- **Per-pair reduction**: the initiator's batch loop starts `rtt` at
  `nanoseconds::max()` (2^63 - 1). It lowers `rtt` to each batch's duration
  with `std::min`. The stored figure is `rtt / 2 / 100`, using C++ integer
  division, which truncates toward zero (`Latency`).
- **Pair sweep**: a nested loop over the indices `i < j` of `cpus` probes each
  pair once. The responder is pinned to CPU `cpus[i]` and the initiator to
  `cpus[j]`. The result is stored in a map keyed by the *indices* `(i, j)` and
  `(j, i)`, not by the CPU ids (`Sweep`).
- **Table read-back**: the printed table reads `data[{i, j}]` for every cell.
  `std::map::operator[]` inserts a zero entry for a missing key, so the
  diagonal reads as `0` (`Report`).
- `C2clat.MeasureLatencies` chains the four stages.

The handshake itself is not modelled. Its outcome is an input
`timer: BatchTimer = (int, int, nat) -> Nanos`. `timer(r, s, m)` is the
measured duration of batch `m` when the responder runs on CPU `r` and the
initiator on CPU `s`. Durations are signed 64-bit nanosecond counts
(`Nanos`). The affinity mask is an input `CpuMask` of 1024 booleans.

Three behaviours of c2clat that the model keeps:
- c2clat accepts any integer `-s` value that `std::stoi` can parse; it does not
  reject zero or negative counts. With zero or fewer batches the batch loop does
  not run, `rtt` stays at `nanoseconds::max()`, and every pair reports
  46116860184273879 ns (`Latency.NoBatchesReportsMaxOverTwoHundred`).
- c2clat has a single handshake, a load/store handoff. It has no
  compare-and-swap variant, no warm-up phase and no reordering of sibling
  hardware threads.
- The diagonal of the latency map is never written, but reading the table
  inserts `(i, i) -> 0`, so the printed diagonal is `0`.

The sweep and the whole run also return a ghost list of the index pairs in the
order they are probed. c2clat keeps no such list; it records the probe order
for the proofs about it.

## Model

| member | source | states |
|---|---|---|
| `Affinity.AvailableCpus` | c2clat.cpp:70-76 | the CPU list is strictly increasing and holds exactly the ids `c` in `[0, CPU_SETSIZE)` whose bit is set in the mask |
| `Affinity.IncreasingListsWithSameElementsAreEqual` | c2clat.cpp:71-76 | those two properties fix the list: two strictly increasing lists with the same elements are equal |
| `Latency.Min` | c2clat.cpp:109 | `std::min` gives a value no larger than either argument and equal to one of them |
| `Latency.BatchMin` | c2clat.cpp:97-110 | the reduced round trip is at most every batch duration; with at least one batch it equals one of them; with `nsamples <= 0` it is `nanoseconds::max()` |
| `Latency.MeasurePair` | c2clat.cpp:97-110 | the batch loop leaves in `rtt` exactly the reduced round trip of the first `nsamples` batches |
| `Latency.BatchMinNonIncreasing` | c2clat.cpp:100-110 | running more batches never raises the reduced round trip |
| `Latency.TruncDiv` | c2clat.cpp:114 | C++ division by a positive divisor: a non-negative quotient `q` with `q*b <= a < q*b + b` for `a >= 0`, and a non-positive one bounded symmetrically for `a < 0` |
| `Latency.OneWay` | c2clat.cpp:114 | `rtt / 2 / 100` is `rtt` divided by 200 and truncated toward zero: `200 r <= rtt < 200 r + 200` for non-negative `rtt`, and the mirror bounds for negative `rtt` |
| `Latency.NoBatchesReportsMaxOverTwoHundred` | c2clat.cpp:97-114 | with no batches the stored value is `nanoseconds::max() / 200` = 46116860184273879 |
| `Latency.OneWayOfMinBounds` | c2clat.cpp:100-114 | if every batch duration is non-negative, the stored value is non-negative and at most each duration divided by 200 |
| `Sweep.ProbePair` | c2clat.cpp:83-115 | probing pair `(i, j)` adds exactly the keys `(i, j)` and `(j, i)`, both holding that pair's latency measured on CPUs `cpus[i]` and `cpus[j]`; every other entry is unchanged |
| `Sweep.SweepRow` | c2clat.cpp:81-116 | the inner loop for `i` adds the pairs `(i, j)` for every `j > i` in increasing `j`, and their mirror keys |
| `Sweep.SweepAll` | c2clat.cpp:78-117 | the map's keys are exactly the ordered index pairs `(a, b)` with `a != b`, both below `cpus.size()`; `(a, b)` and `(b, a)` hold the latency of `cpus[min]`/`cpus[max]`; the probes made are the lexicographic pair order |
| `Sweep.RowOrderIsRow` | c2clat.cpp:81 | the inner loop for `i` stopped before `j` has probed `(i, i+1), ..., (i, j-1)`, in that order |
| `Sweep.RowOrderMembers` | c2clat.cpp:81 | those probes are exactly the pairs `(i, b)` with `i < b < j` |
| `Sweep.SweepOrderLength` | c2clat.cpp:80-81 | the first `i` outer iterations make `i (2n - i - 1) / 2` probes |
| `Sweep.SweepOrderMembers` | c2clat.cpp:80-81 | the first `i` outer iterations probe exactly the pairs `lo < hi < n` with `lo < i` |
| `Sweep.SweepOrderLexSorted` | c2clat.cpp:80-81 | the probes come in strictly increasing lexicographic order (outer `i`, inner `j`) |
| `Sweep.SweepProbesEachPairOnce` | c2clat.cpp:80-81 | the sweep probes every `i < j < n` and nothing else, no pair twice, `n (n - 1) / 2` probes in all |
| `Sweep.MatrixSymmetric` | c2clat.cpp:114-115 | the finished map is symmetric, `data[(j, i)] == data[(i, j)]`, and holds no diagonal key `(i, i)` |
| `Report.Lookup` | c2clat.cpp:136 | `data[k]` yields the stored value or `0`; afterwards the map holds `k` and all its old entries unchanged |
| `Report.ReportTable` | c2clat.cpp:133-139 | cell `(i, j)` of the table is the stored value of `(i, j)` or `0`, for every `i, j < n`; afterwards the map has gained a zero entry for every cell it lacked |
| `Report.SweptTable` | c2clat.cpp:133-139 | on a finished sweep the table's diagonal is `0`, cell `(i, j)` above the diagonal is the pair's latency, and the table is symmetric |
| `C2clat.MeasureLatencies` | c2clat.cpp:70-139 | the whole run: the CPU list as above; `n (n - 1) / 2` probes of distinct pairs in lexicographic order; a symmetric `n x n` table with a zero diagonal whose cell `(i, j)` is `OneWay(BatchMin(...))` for CPUs `cpus[i]`, `cpus[j]` |
| `C2clat.ThreeCpusProbeOrder` | c2clat.cpp:80-81 | three CPUs are probed as `(0, 1)`, `(0, 2)`, `(1, 2)` |

## Left out

- The two-thread ping-pong (thread spawn and join, the atomics `seq1`/`seq2` with acquire/release ordering, the spin-waits, the per-batch reset): it is concurrent and about memory ordering. Its outcome per batch is the input `timer`.
- The `steady_clock` timestamps: batch durations are given by `timer`.
- `pinThread`/`sched_setaffinity` and `sched_getaffinity` with their `exit(1)` on failure: operating-system calls. The mask is an input, and pinning shows up only in which CPU ids are passed to `timer`.
- `getopt`/`std::stoi` argument parsing and the usage message: `nsamples` is an input `int` of any value, which covers every value `std::stoi` can return. A non-numeric or out-of-range `-s` argument makes `std::stoi` throw, nothing catches it, and the program ends; the model does not represent that path.
- The `setw` formatting, the header row of CPU ids and the gnuplot script: text output. The model returns the values the table prints, not the text.
- Durations that depend on when a batch runs (for example caches warmed by earlier pairs): each batch duration is a fixed function of the two CPU ids and the batch number.
