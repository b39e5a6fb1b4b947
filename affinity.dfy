/** Enumeration of the CPUs a process may run on, from its affinity mask. */
module Affinity {

  /** Number of CPUs a `cpu_set_t` can describe (glibc's CPU_SETSIZE). */
  const CpuSetSize: nat := 1024

  /** An affinity mask: `mask[c]` says whether CPU `c` is in the set. */
  type CpuMask = m: seq<bool> | |m| == CpuSetSize witness seq(CpuSetSize, _ => false)

  ghost predicate StrictlyIncreasing(s: seq<int>)
  {
    forall a, b :: 0 <= a < b < |s| ==> s[a] < s[b]
  }

  /** The list of available CPU ids: every id whose bit is set, in increasing order. */
  method AvailableCpus(mask: CpuMask) returns (cpus: seq<int>)
    ensures StrictlyIncreasing(cpus)
    ensures forall c :: c in cpus <==> 0 <= c < CpuSetSize && mask[c]
  {
    cpus := [];
    for i := 0 to CpuSetSize
      invariant StrictlyIncreasing(cpus)
      invariant forall c :: c in cpus <==> 0 <= c < i && mask[c]
    {
      if mask[i] {
        assert forall a :: 0 <= a < |cpus| ==> cpus[a] in cpus;
        cpus := cpus + [i];
      }
    }
  }

  /** The two postconditions of AvailableCpus determine its result: two strictly
      increasing lists with the same elements are the same list. */
  lemma {:induction false} IncreasingListsWithSameElementsAreEqual(s: seq<int>, t: seq<int>)
    requires StrictlyIncreasing(s) && StrictlyIncreasing(t)
    requires forall c :: c in s <==> c in t
    ensures s == t
  {
    assert s != [] ==> s[0] in s;
    assert t != [] ==> t[0] in t;
    if s != [] && t != [] {
      assert s[0] == t[0] by {
        var k :| 0 <= k < |t| && t[k] == s[0];
        var l :| 0 <= l < |s| && s[l] == t[0];
        assert t[0] <= t[k] && s[0] <= s[l];
      }
      forall c
        ensures c in s[1..] <==> c in t[1..]
      {
        if c in s[1..] {
          var k :| 1 <= k < |s| && s[k] == c;
          assert c in t && c != t[0];
        }
        if c in t[1..] {
          var k :| 1 <= k < |t| && t[k] == c;
          assert c in s && c != s[0];
        }
      }
      IncreasingListsWithSameElementsAreEqual(s[1..], t[1..]);
      assert s == [s[0]] + s[1..] && t == [t[0]] + t[1..];
    }
  }
}
