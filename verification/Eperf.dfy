/** The system-wide counters of src/eperf.c: one descriptor per processor. */
module Eperf {
  import opened Kernel

  const MAX_NR_CPUS: nat := 32

  /** The descriptors that belong to neither a process counter nor a processor counter. */
  function Others(open: map<int, Target>): map<int, Target> {
    map d | d in open && open[d].Other? :: open[d]
  }

  function NotCpu(open: map<int, Target>): map<int, Target> {
    map d | d in open && !open[d].Cpu? :: open[d]
  }

  /** The open processor counters are exactly those in `fd`, each at its processor's index. */
  ghost predicate CpuCountersExact(fd: seq<int>, n: nat, open: map<int, Target>)
    requires n <= |fd|
  {
    && (forall c :: 0 <= c < n ==> fd[c] <= 0 || (fd[c] in open && open[fd[c]] == Cpu(c)))
    && (forall d :: d in open && open[d].Cpu? ==> d > 0 && open[d].cpu < n && fd[open[d].cpu] == d)
  }

  class CpuCounters {
    var nrCpus: nat
    const fd: array<int>

    ghost predicate Exact(open: map<int, Target>)
      reads this, fd
    {
      && fd.Length == MAX_NR_CPUS && nrCpus <= MAX_NR_CPUS
      && CpuCountersExact(fd[..], nrCpus, open)
    }

    /** Before `init_perf`: a zeroed table, no processors counted. */
    constructor ()
      ensures nrCpus == 0 && fresh(fd) && fd.Length == MAX_NR_CPUS
      ensures forall i :: 0 <= i < fd.Length ==> fd[i] == 0
    {
      nrCpus := 0;
      fd := new int[MAX_NR_CPUS](_ => 0);
    }

    /** `init_perf`: the system-wide branch of `create_perf_stat_counter` for every processor. */
    method InitPerf(sys: System, online: nat, granted: seq<bool>) returns (last: int)
      requires fd.Length == MAX_NR_CPUS && 0 < online <= MAX_NR_CPUS && |granted| == online
      requires NotCpu(sys.open) == sys.open
      modifies this, fd, sys`open
      ensures nrCpus == online && Exact(sys.open)
      ensures forall c :: 0 <= c < online ==> (granted[c] <==> fd[c] > 0) && (!granted[c] <==> fd[c] == -1)
      ensures last == fd[online - 1]
      ensures NotCpu(sys.open) == old(sys.open)
    {
      nrCpus := online;
      var cpu := 0;
      while cpu < nrCpus
        invariant 0 <= cpu <= nrCpus == online
        invariant CpuCountersExact(fd[..], cpu, sys.open)
        invariant forall c :: 0 <= c < cpu ==> (granted[c] <==> fd[c] > 0) && (!granted[c] <==> fd[c] == -1)
        invariant NotCpu(sys.open) == old(sys.open)
      {
        fd[cpu] := sys.PerfEventOpen(Cpu(cpu), granted[cpu]);
        cpu := cpu + 1;
      }
      last := fd[cpu - 1];
    }

    /** The first half of `close_all_counters`: every processor counter, once each. */
    method CloseCpuCounters(sys: System)
      requires Exact(sys.open)
      modifies fd, sys`open
      ensures sys.open == NotCpu(old(sys.open))
      ensures Exact(sys.open)
      ensures forall c :: 0 <= c < nrCpus ==> fd[c] <= 0
    {
      var counter := 0;
      while counter < nrCpus
        invariant 0 <= counter <= nrCpus
        invariant CpuCountersExact(fd[..], nrCpus, sys.open)
        invariant forall c :: 0 <= c < counter ==> fd[c] <= 0
        invariant NotCpu(sys.open) == NotCpu(old(sys.open))
      {
        if fd[counter] > 0 {
          ghost var was := sys.open;
          sys.Close(fd[counter]);
          fd[counter] := -1;
          assert NotCpu(sys.open) == NotCpu(was);
        }
        counter := counter + 1;
      }
      assert forall d :: d in sys.open ==> !sys.open[d].Cpu?;
      assert NotCpu(sys.open) == sys.open;
    }
  }
}
