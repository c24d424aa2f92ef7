/** A whole life of the sampler: start-up, any number of rounds, shutdown. */
module Session {
  import opened Kernel
  import opened AvlTree
  import opened Eperf
  import opened Rounds
  import opened Sampler
  import opened Ranking
  import opened Tables
  import opened AvlShape
  import opened Outputs
  import opened Log

  /** What the processor counters are depends on the device descriptors alone. */
  lemma {:induction false} CpuExactOnDevices(fd: seq<int>, n: nat, open: map<int, Target>)
    requires n <= |fd|
    ensures CpuCountersExact(fd, n, open) <==> CpuCountersExact(fd, n, Devices(open))
  {
    var dev := Devices(open);
    assert forall d :: d in open && open[d].Cpu? <==> d in dev && dev[d].Cpu?;
    if CpuCountersExact(fd, n, dev) {
      forall d | d in open && open[d].Cpu?
        ensures d > 0 && open[d].cpu < n && fd[open[d].cpu] == d
      {
        assert d in dev && dev[d].Cpu?;
      }
    }
  }

  lemma {:induction false} OthersApart(open: map<int, Target>)
    ensures Devices(NotCpu(open)) == Others(open) == NotCpu(Devices(open))
  {
  }

  lemma {:induction false} SameOthers(a: map<int, Target>, b: map<int, Target>)
    requires Devices(a) == Devices(b)
    ensures Others(a) == Others(b)
  {
    OthersApart(a);
    OthersApart(b);
  }

  lemma {:induction false} NoProcessCounters(open: map<int, Target>)
    requires Others(NotCpu(open)) == NotCpu(open)
    ensures Devices(open) == open
  {
    forall d | d in open
      ensures !open[d].Process?
    {
      var rest := NotCpu(open);
      assert !open[d].Cpu? ==> d in rest && rest[d] == open[d];
      assert d in rest ==> d in Others(rest);
    }
  }

  /** The clock, as the two deletions of one `freeup_all` read it. */
  datatype Clock = Clock(ps: int, sys: int)

  /** The state of a program that starts with these tables. */
  function Started(processInfo: seq<ProcessInfo>, sysInfo: seq<SysInfo>): State {
    Initial(seq(BOARD_SIZE, _ => NO_PROCESS_INFO)).(processInfo := processInfo, sysInfo := sysInfo)
  }

  /** The state after start-up: what the two deletions spare of the tables it finds. */
  function StartedFrom(processInfo: seq<ProcessInfo>, sysInfo: seq<SysInfo>, first: Clock, second: Clock): State {
    Started(KeepPs(KeepPs(processInfo, first.ps), second.ps), KeepSys(KeepSys(sysInfo, first.sys), second.sys))
  }

  /** Start-up leaves empty tables unless they hold rows of the present or the future. */
  lemma {:induction false} StartsEmptyIff(ps: seq<ProcessInfo>, sys: seq<SysInfo>, first: Clock, second: Clock)
    requires first.ps <= second.ps && first.sys <= second.sys
    ensures StartedFrom(ps, sys, first, second) == Initial(seq(BOARD_SIZE, _ => NO_PROCESS_INFO)) <==>
            (forall x :: x in ps ==> x.time < second.ps) && (forall x :: x in sys ==> x.time < second.sys)
  {
    KeepPsTwice(ps, first.ps, second.ps);
    KeepSysTwice(sys, first.sys, second.sys);
    KeepsNothingIff(ps, second.ps);
    KeepsNoSysIff(sys, second.sys);
  }

  lemma {:induction false} KeepsNothingIff(rows: seq<ProcessInfo>, cutoff: int)
    ensures KeepPs(rows, cutoff) == [] <==> forall x :: x in rows ==> x.time < cutoff
  {
    if rows != [] {
      KeepsNothingIff(rows[1..], cutoff);
      assert rows == [rows[0]] + rows[1..];
    }
  }

  lemma {:induction false} KeepsNoSysIff(rows: seq<SysInfo>, cutoff: int)
    ensures KeepSys(rows, cutoff) == [] <==> forall x :: x in rows ==> x.time < cutoff
  {
    if rows != [] {
      KeepsNoSysIff(rows[1..], cutoff);
      assert rows == [rows[0]] + rows[1..];
    }
  }

  /** What of the globals outlives a run, against the state the run leads to. */
  ghost predicate Shows(s: Sampler, t: State)
    reads s, s.pstList, s.db
  {
    && s.shape == t.tree && s.pstList[..] == t.board
    && s.db.processInfo == t.processInfo && s.db.sysInfo == t.sysInfo
  }

  /** The globals before the first round. */
  method NewSampler(system: System, db: Database) returns (s: Sampler)
    requires Devices(system.open) == system.open
    ensures fresh(s) && fresh(s.sysStats) && fresh(s.pstList) && s.sys == system && s.db == db
    ensures s.Valid() && s.shape.Nil? && s.nodes == map[]
    ensures s.Abs(true, 1) == Started(db.processInfo, db.sysInfo)
  {
    s := new Sampler(system, db);
    assert s.pstList[..] == seq(BOARD_SIZE, _ => NO_PROCESS_INFO);
  }

  /** The counters of the processors, opened in a table that has none. */
  method StartCounters(system: System, online: nat, granted: seq<bool>) returns (cpus: CpuCounters)
    requires Others(system.open) == system.open
    requires 0 < online <= MAX_NR_CPUS && |granted| == online
    modifies system`open
    ensures fresh(cpus) && fresh(cpus.fd) && cpus.Exact(system.open)
    ensures Devices(system.open) == system.open && NotCpu(system.open) == old(system.open)
  {
    cpus := new CpuCounters();
    assert NotCpu(system.open) == system.open;
    var _ := cpus.InitPerf(system, online, granted);
    NoProcessCounters(system.open);
  }

  /**
   `system_init`: the tables are purged, before the counters of the processors are opened
   and after. The globals are as before the first round.
   */
  method SystemInit(system: System, db: Database, online: nat, granted: seq<bool>, first: Clock, second: Clock)
    returns (s: Sampler, cpus: CpuCounters)
    requires Others(system.open) == system.open
    requires 0 < online <= MAX_NR_CPUS && |granted| == online
    modifies system`open, db
    ensures fresh(s) && fresh(cpus) && fresh(cpus.fd) && s.sys == system && s.db == db
    ensures fresh(s.sysStats) && fresh(s.pstList)
    ensures s.Valid() && s.shape.Nil? && s.nodes == map[]
    ensures s.Abs(true, 1) == StartedFrom(old(db.processInfo), old(db.sysInfo), first, second)
    ensures cpus.Exact(system.open)
    ensures Devices(system.open) == system.open && NotCpu(system.open) == old(system.open)
  {
    db.FreeupAll(0, first.ps, first.sys);
    cpus := StartCounters(system, online, granted);
    db.FreeupAll(0, second.ps, second.sys);
    s := NewSampler(system, db);
  }

  /** `system_clean`: the tables, the counters of the processors, then the tree. */
  method SystemClean(s: Sampler, cpus: CpuCounters, system: System, last: Clock)
    requires s.Valid() && s.sys == system && cpus.Exact(Devices(system.open))
    requires Footprint(s.shape, s.nodes) !! system.freed
    modifies cpus.fd, system, s.db
    ensures system.open == Others(old(system.open))
    ensures system.freed == old(system.freed) + Footprint(s.shape, s.nodes)
    ensures s.db.processInfo == KeepPs(old(s.db.processInfo), last.ps)
    ensures s.db.sysInfo == KeepSys(old(s.db.sysInfo), last.sys)
  {
    s.db.FreeupAll(0, last.ps, last.sys);
    CpuExactOnDevices(cpus.fd[..], cpus.nrCpus, system.open);
    OthersApart(system.open);
    cpus.CloseCpuCounters(system);
    s.FreeTree();
  }

  /** The rounds: all nodes are new, and the counters of the processors are as they were. */
  method RunRounds(s: Sampler, cpus: CpuCounters, system: System, rounds: seq<Input>)
    requires s.Valid() && s.sys == system && s.shape.Nil? && s.nodes == map[]
    requires cpus.Exact(system.open) && Devices(system.open) == system.open
    requires rounds == [] || rounds[0].listing != []
    modifies s, s.sysStats, s.pstList, s.db, system`open
    ensures s.Valid() && fresh(Footprint(s.shape, s.nodes))
    ensures Shows(s, Run(old(s.Abs(true, 1)), rounds))
    ensures cpus.Exact(Devices(system.open)) && Others(system.open) == Others(old(system.open))
  {
    var _, _ := s.MainLoop(rounds);
    SameOthers(old(system.open), system.open);
  }

  /** The rounds and the shutdown, after which only the descriptors of others are open. */
  method RunAndClean(s: Sampler, cpus: CpuCounters, system: System, rounds: seq<Input>, last: Clock)
    requires s.Valid() && s.sys == system && s.shape.Nil? && s.nodes == map[]
    requires cpus.Exact(system.open) && Devices(system.open) == system.open
    requires rounds == [] || rounds[0].listing != []
    modifies s, s.sysStats, s.pstList, s.db, cpus.fd, system
    ensures s.TreeValid() && fresh(Footprint(s.shape, s.nodes))
    ensures Shows(s, Cleaned(Run(old(s.Abs(true, 1)), rounds), last))
    ensures system.open == Others(old(system.open))
    ensures system.freed == old(system.freed) + Footprint(s.shape, s.nodes)
  {
    RunRounds(s, cpus, system, rounds);
    SystemClean(s, cpus, system, last);
  }

  /** A state whose tables are purged at shutdown. */
  function Cleaned(s: State, last: Clock): State {
    s.(processInfo := KeepPs(s.processInfo, last.ps), sysInfo := KeepSys(s.sysInfo, last.sys))
  }

  lemma {:induction false} RunListsKeys(ps: seq<ProcessInfo>, sys: seq<SysInfo>, rounds: seq<Input>)
    ensures Keys(Run(Started(ps, sys), rounds).tree) == Listed(rounds)
  {
    RunKeys(Started(ps, sys), rounds);
  }

  /**
   From a table without counters, through start-up, any rounds and `system_clean`, back to
   exactly the same table: every counter opened for a processor or a process is closed,
   once, and nothing else is. The tree, the ranked list and the tables are those of the run;
   there is one node for each process that was ever listed, and it is these nodes, all new,
   that have been freed, once each.
   */
  method Session(system: System, db: Database, online: nat, granted: seq<bool>, rounds: seq<Input>,
                 first: Clock, second: Clock, last: Clock)
    returns (s: Sampler)
    requires Others(system.open) == system.open
    requires 0 < online <= MAX_NR_CPUS && |granted| == online
    requires rounds == [] || rounds[0].listing != []
    modifies system, db
    ensures s.TreeValid() && fresh(Footprint(s.shape, s.nodes)) && s.db == db
    ensures Shows(s, Cleaned(Run(StartedFrom(old(db.processInfo), old(db.sysInfo), first, second), rounds), last))
    ensures s.nodes.Keys == Listed(rounds)
    ensures system.open == old(system.open)
    ensures system.freed == old(system.freed) + Footprint(s.shape, s.nodes)
  {
    var cpus;
    s, cpus := SystemInit(system, db, online, granted, first, second);
    ghost var start := s.Abs(true, 1);
    OthersApart(system.open);
    RunAndClean(s, cpus, system, rounds, last);
    RunListsKeys(start.processInfo, start.sysInfo, rounds);
  }
}
