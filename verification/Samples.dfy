/**
 One sample of a process (`struct pid_stats` in src/common.h), the two samples kept
 per process, and the tests and corrections that src/ptop.c applies to such a pair.
 */
module Samples {
  import opened Counters

  datatype PidStats = PidStats(
    pid: u32,
    utime: u64, stime: u64, gtime: u64, cutime: u64, cstime: u64,
    minflt: u32, majflt: u32, cminflt: u32, cmajflt: u32,
    vsz: u32, rss: u32, nvcsw: u32, nivcsw: u32,
    readBytes: u64, writeBytes: u64, cancelledWriteBytes: u64,
    netsnd: u64, netrcv: u64,
    cpuAccesses: u64)

  const ZERO_STATS := PidStats(0, 0, 0, 0, 0, 0, 0, 0, 0, 0, 0, 0, 0, 0, 0, 0, 0, 0, 0, 0)

  /** `pst_list[2]`: the two samples of a process; rounds alternate between the slots. */
  datatype Slots = Slots(first: PidStats, second: PidStats) {
    function Get(curr: bool): PidStats {
      if curr then second else first
    }

    function Set(curr: bool, s: PidStats): (r: Slots)
      ensures r.Get(curr) == s && r.Get(!curr) == Get(!curr)
    {
      if curr then Slots(first, s) else Slots(s, second)
    }
  }

  const ZERO_SLOTS := Slots(ZERO_STATS, ZERO_STATS)

  /** 0: no such process; 1: it did something since the previous sample; -1: it did not. */
  function IsActive(prev: PidStats, cur: PidStats): int {
    if cur.pid <= 0 then 0
    else if cur.utime != prev.utime || cur.stime != prev.stime then 1
    else if cur.cutime != prev.cutime || cur.cstime != prev.cstime then 1
    else if cur.minflt != prev.minflt || cur.majflt != prev.majflt then 1
    else if cur.vsz != prev.vsz || cur.rss != prev.rss then 1
    else if cur.cminflt != prev.cminflt || cur.cmajflt != prev.cmajflt then 1
    else if cur.readBytes != prev.readBytes || cur.writeBytes != prev.writeBytes
            || cur.cancelledWriteBytes != prev.cancelledWriteBytes then 1
    else if cur.nvcsw != prev.nvcsw || cur.nivcsw != prev.nivcsw then 1
    else -1
  }

  /** Equal but for what `is_active` does not look at. */
  predicate SameActivity(prev: PidStats, cur: PidStats) {
    cur == prev.(pid := cur.pid, gtime := cur.gtime, netsnd := cur.netsnd, netrcv := cur.netrcv,
                 cpuAccesses := cur.cpuAccesses)
  }

  /**
   A process is idle iff nothing changed but guest time, network and cache misses; the
   test looks at the two samples alike.
   */
  lemma {:induction false} IsActiveIff(prev: PidStats, cur: PidStats)
    ensures IsActive(prev, cur) == 0 <==> cur.pid == 0
    ensures IsActive(prev, cur) == -1 <==> cur.pid > 0 && SameActivity(prev, cur)
    ensures IsActive(prev, cur) == 1 <==> cur.pid > 0 && !SameActivity(prev, cur)
    ensures prev.pid > 0 && cur.pid > 0 ==> IsActive(prev, cur) == IsActive(cur, prev)
  {
    assert SameActivity(prev, cur) <==>
           cur == PidStats(cur.pid, prev.utime, prev.stime, cur.gtime, prev.cutime, prev.cstime,
                           prev.minflt, prev.majflt, prev.cminflt, prev.cmajflt, prev.vsz, prev.rss,
                           prev.nvcsw, prev.nivcsw, prev.readBytes, prev.writeBytes, prev.cancelledWriteBytes,
                           cur.netsnd, cur.netrcv, cur.cpuAccesses);
  }

  /** A drop of less than 100 ticks is taken for jitter and undone. */
  function UndoDip(cur: u64, prev: u64): u64 {
    if cur < prev && prev - cur < 100 then prev else cur
  }

  function UndoDips(cur: PidStats, prev: PidStats): PidStats {
    cur.(utime := UndoDip(cur.utime, prev.utime),
         stime := UndoDip(cur.stime, prev.stime),
         gtime := UndoDip(cur.gtime, prev.gtime))
  }

  /** What the write pass leaves in the slots of a process. */
  function Settle(s: Slots, curr: bool): Slots {
    if IsActive(s.Get(!curr), s.Get(curr)) > 0
    then s.Set(curr, UndoDips(s.Get(curr), s.Get(!curr)))
    else s
  }
}
