/**
 What the process asks of the system: the descriptor table behind
 `sys_perf_event_open` and `close`, and the record of freed memory.
 */
module Kernel {
  import opened Arithmetic

  /** What a descriptor was opened for. */
  datatype Target = Process(pid: int) | Cpu(cpu: nat) | Other

  lemma {:induction false} SomeFreeDescriptor(used: set<int>) returns (d: int)
    ensures d > 0 && forall u :: u in used ==> u < d
  {
    d := 1;
    if u :| u in used {
      var e := SomeFreeDescriptor(used - {u});
      d := Max(u + 1, e);
      assert forall v :: v in used ==> v == u || v in used - {u};
    }
  }

  class System {
    var open: map<int, Target>
    ghost var freed: set<object>

    /** Fails with -1, or returns any positive descriptor that is not in use. */
    method PerfEventOpen(target: Target, granted: bool) returns (fd: int)
      modifies this`open
      ensures granted ==> fd > 0 && fd !in old(open) && open == old(open)[fd := target]
      ensures !granted ==> fd == -1 && open == old(open)
    {
      if !granted {
        return -1;
      }
      ghost var free := SomeFreeDescriptor(open.Keys);
      assert free !in open;
      fd :| fd > 0 && fd !in open;
      open := open[fd := target];
    }

    /** Only an open descriptor may be closed, so none is closed twice. */
    method Close(fd: int)
      requires fd in open
      modifies this`open
      ensures open == old(open) - {fd}
    {
      open := open - {fd};
    }

    /** Only an object that was not freed before may be freed. */
    ghost method Free(o: object)
      requires o !in freed
      modifies this`freed
      ensures freed == old(freed) + {o}
    {
      freed := freed + {o};
    }
  }
}
