/**
 One round of the sampler of src/ptop.c as a function on values, and runs of rounds.
 Class `Sampler` does the same on the heap and is proved to compute these functions.
 */
module Rounds {
  import opened Arithmetic
  import opened Counters
  import opened Floats
  import opened Samples
  import opened Tables
  import opened Ranking
  import opened AvlShape

  /** What the tree holds for a process: does it have an open counter, and its two samples. */
  datatype Entry = Entry(counting: bool, slots: Slots)

  const NEW_ENTRY := Entry(false, ZERO_SLOTS)

  type Entries = map<int, Entry>

  function Lookup(m: Entries, k: int): Entry {
    if k in m then m[k] else NEW_ENTRY
  }

  // ------------------------------------------------------------- reading

  /**
   One entry of the listing of /proc and what reading it gives. `alive` is false if its
   stat, status or io file has gone, and `sample` is then what was read before; `granted` tells
   whether the kernel would grant a counter, and `count` what the counter reads.
   */
  datatype Probe = Probe(pid: u32, alive: bool, sample: PidStats, granted: bool, count: u64)

  /** The current sample when the memory figures are about to be read. */
  function Read(p: Probe): PidStats {
    p.sample.(pid := p.pid)
  }

  /** `read_pid_stats` with the reset of the pid that follows a failure. */
  function ProbeEntry(e: Entry, curr: bool, p: Probe): Entry {
    if !p.alive then
      e.(slots := e.slots.Set(curr, p.sample.(pid := 0)))
    else
      var active := IsActive(e.slots.Get(!curr), Read(p)) != 0;
      var counting := e.counting || (active && p.granted);
      Entry(counting, e.slots.Set(curr, Read(p).(cpuAccesses := if counting then p.count else 0)))
  }

  /** `read_process_stats`: the listing from its first entry to its last. */
  function Scan(m: Entries, curr: bool, listing: seq<Probe>): Entries {
    if listing == [] then m
    else
      var p := listing[|listing| - 1];
      var before := Scan(m, curr, listing[..|listing| - 1]);
      before[p.pid as int := ProbeEntry(Lookup(before, p.pid), curr, p)]
  }

  function Pids(listing: seq<Probe>): seq<int> {
    seq(|listing|, i requires 0 <= i < |listing| => listing[i].pid)
  }

  /** The first line of /proc/stat. */
  datatype CpuLine = CpuLine(user: u64, nice: u64, system: u64, idle: u64, iowait: u64,
                             hardirq: u64, softirq: u64, steal: u64, guest: u64) {
    function Total(): nat {
      user + nice + system + idle + iowait + hardirq + steal + softirq
    }

    function Busy(): int {
      user + system - guest
    }
  }

  /** All that one round takes from outside. */
  datatype Input = Input(
    ctime: int, stamp: int, cpuLine: CpuLine, listing: seq<Probe>,
    cpupower: real, memaccess: u64, netsnd: u64, netrcv: u64,
    screen: bool, nowPs: int, nowSys: int)

  /** `sys_stats[curr]` after the reads: the two sums are cut to 32 bits. */
  function SysSample(r: Input): SysInfo {
    SysInfo(r.ctime, r.netsnd, r.netrcv, 0, 0, r.cpupower, r.memaccess,
            Wrap32(r.cpuLine.Total()), Wrap32(r.cpuLine.Busy()), 0)
  }

  // ------------------------------------------------------------- writing

  function CpuTicks(cur: PidStats, prev: PidStats): u64 {
    Wrap64(Subcount64(cur.utime, prev.utime) + Subcount64(cur.stime, prev.stime))
  }

  /** The row of a process. The source subtracts `utime` from itself. */
  function MakeRow(cur: PidStats, prev: PidStats, time: int, itv: u64): ProcessInfo {
    var guest := Subcount64(cur.gtime, prev.gtime);
    var written := Subcount64(cur.writeBytes, prev.writeBytes);
    ProcessInfo(
      time, cur.pid,
      Percent(Wrap64(Subcount64(cur.utime, cur.utime) - guest), itv),
      Percent(Subcount64(cur.stime, prev.stime), itv),
      Percent(guest, itv),
      Percent(CpuTicks(cur, prev), itv),
      cur.vsz, cur.rss,
      Subcount64(cur.readBytes, prev.readBytes),
      written,
      Min(Subcount64(cur.cancelledWriteBytes, prev.cancelledWriteBytes), written),
      Subcount64(cur.netsnd, prev.netsnd),
      Subcount64(cur.netrcv, prev.netrcv),
      if cur.cpuAccesses > 0 then Subcount64(cur.cpuAccesses, prev.cpuAccesses) else 0)
  }

  /** The device totals are counted in 32 bits: the byte counters are cut when passed on. */
  function DiskRead(cur: PidStats, prev: PidStats): u32 {
    Subcount(Wrap32(cur.readBytes), Wrap32(prev.readBytes))
  }

  function DiskWritten(cur: PidStats, prev: PidStats): u32 {
    Wrap32(Subcount(Wrap32(cur.writeBytes), Wrap32(prev.writeBytes))
           - Subcount(Wrap32(cur.cancelledWriteBytes), Wrap32(prev.cancelledWriteBytes)))
  }

  predicate Shown(row: ProcessInfo) {
    Less(Fin(0.0), row.cpu) || row.cpuAccesses > 0 || row.netrcv + row.netsnd > 0
  }

  /** What the write pass has produced so far: the table, the device totals, the ranked list. */
  datatype Pass = Pass(rows: seq<ProcessInfo>, diskRead: u64, diskWritten: u64,
                       board: seq<ProcessInfo>, shown: nat)

  datatype Frame = Frame(curr: bool, time: int, itv: u64, screen: bool)

  /** The row `write_stat` emits for a process that was active. */
  function RowOf(s: Slots, f: Frame): ProcessInfo {
    MakeRow(UndoDips(s.Get(f.curr), s.Get(!f.curr)), s.Get(!f.curr), f.time, f.itv)
  }

  predicate Active(s: Slots, curr: bool) {
    IsActive(s.Get(!curr), s.Get(curr)) > 0
  }

  /** `write_stat` at one node. */
  function Visit(p: Pass, s: Slots, f: Frame): (r: Pass)
    requires |p.board| == BOARD_SIZE
    ensures |r.board| == BOARD_SIZE
  {
    if !Active(s, f.curr) then p
    else
      var cur, prev := s.Get(f.curr), s.Get(!f.curr);
      var row := RowOf(s, f);
      var show := f.screen && Shown(row);
      Pass(p.rows + [row],
           Wrap64(p.diskRead + DiskRead(cur, prev)),
           Wrap64(p.diskWritten + DiskWritten(cur, prev)),
           if show then Offer(p.board, row, Min(p.shown, SHOW_NUM)) else p.board,
           if show then p.shown + 1 else p.shown)
  }

  /** `write_stat` at the nodes with the given keys, in that order. */
  function Walk(p: Pass, keys: seq<int>, m: Entries, f: Frame): (r: Pass)
    requires |p.board| == BOARD_SIZE
    ensures |r.board| == BOARD_SIZE
    decreases |keys|
  {
    if keys == [] then p
    else Walk(Visit(p, Lookup(m, keys[0]).slots, f), keys[1..], m, f)
  }

  lemma {:induction false} WalkConcat(p: Pass, a: seq<int>, b: seq<int>, m: Entries, f: Frame)
    requires |p.board| == BOARD_SIZE
    ensures Walk(p, a + b, m, f) == Walk(Walk(p, a, m, f), b, m, f)
    decreases |a|
  {
    if a == [] {
      assert a + b == b;
    } else {
      WalkConcat(Visit(p, Lookup(m, a[0]).slots, f), a[1..], b, m, f);
      assert (a + b)[1..] == a[1..] + b;
    }
  }

  /** What the write pass leaves of an entry: the counter of an idle or gone process is closed. */
  function SettleEntry(e: Entry, curr: bool): Entry {
    Entry(e.counting && Active(e.slots, curr), Settle(e.slots, curr))
  }

  function SettleAll(m: Entries, curr: bool): Entries {
    map k | k in m :: SettleEntry(m[k], curr)
  }

  /** The row `write_system_stats` inserts. */
  function SysRow(cur: SysInfo, last: SysInfo, time: int, amount: int): SysInfo {
    cur.(time := time,
         totalnetrcv := Subcount64(cur.totalnetrcv, last.totalnetrcv),
         totalnetsnd := Subcount64(cur.totalnetsnd, last.totalnetsnd),
         itv := Wrap32(Subcount64(cur.itv, last.itv)),
         runtime := Wrap32(Subcount64(cur.runtime, last.runtime)),
         memaccess := Subcount64(cur.memaccess, last.memaccess),
         activeProcessNum := amount)
  }

  // -------------------------------------------------------------- rounds

  const CLEAN_INTERVAL: u32 := 31

  /**
   What persists from round to round. `last` is `sys_stats[!curr]`; the other sample of
   `sys_stats` is cleared before it is used.
   */
  datatype State = State(
    tree: Tree, entries: Entries, curr: bool, last: SysInfo, board: seq<ProcessInfo>,
    cycle: nat, processInfo: seq<ProcessInfo>, sysInfo: seq<SysInfo>)

  /** The reads of a round: new processes get a node, the current slots are filled. */
  function Scanned(s: State, r: Input): State {
    s.(tree := InsertAll(s.tree, Pids(r.listing)), entries := Scan(s.entries, s.curr, r.listing))
  }

  /** `itv` in the frame is the busy time of the processors since the previous round. */
  function FrameOf(s: State, r: Input): Frame {
    Frame(s.curr, r.ctime, Subcount64(SysSample(r).runtime, s.last.runtime), r.screen)
  }

  /** The write pass over the whole tree; the rows go behind those in the table. */
  function WritePass(s: State, r: Input): (p: Pass)
    requires |s.board| == BOARD_SIZE
    ensures |p.board| == BOARD_SIZE
  {
    Walk(Pass(s.processInfo, 0, 0, s.board, 0), PreOrder(s.tree), s.entries, FrameOf(s, r))
  }

  function SampleWithDisk(r: Input, p: Pass): SysInfo {
    SysSample(r).(totaldiskread := p.diskRead, totaldiskwrite := p.diskWritten)
  }

  /**
   The writes of a round, after which the other slots are current. The system sample gets
   the disk totals of the pass; `write_process_stats` returns one less than the records shown.
   */
  function Written(s: State, r: Input): (s': State)
    requires |s.board| == BOARD_SIZE
    ensures |s'.board| == BOARD_SIZE
  {
    var p := WritePass(s, r);
    var cur := SampleWithDisk(r, p);
    State(s.tree, SettleAll(s.entries, s.curr), !s.curr, cur, p.board, s.cycle + 1,
          p.rows, s.sysInfo + [SysRow(cur, s.last, r.ctime, p.shown as int - 1)])
  }

  predicate Purges(cycle: nat) {
    cycle % CLEAN_INTERVAL == 0
  }

  /** `freeup_all`, in every 31st round. */
  function Purged(s: State, cycle: nat, r: Input): State {
    if Purges(cycle)
    then s.(processInfo := KeepPs(s.processInfo, r.nowPs - CLEAN_INTERVAL),
            sysInfo := KeepSys(s.sysInfo, r.nowSys - CLEAN_INTERVAL))
    else s
  }

  function Step(s: State, r: Input): (s': State)
    requires |s.board| == BOARD_SIZE
    ensures |s'.board| == BOARD_SIZE
  {
    Purged(Written(Scanned(s, r), r), s.cycle, r)
  }

  function Run(s: State, rs: seq<Input>): (s': State)
    requires |s.board| == BOARD_SIZE
    ensures |s'.board| == BOARD_SIZE
  {
    if rs == [] then s else Step(Run(s, rs[..|rs| - 1]), rs[|rs| - 1])
  }

  lemma {:induction false} RunNext(s: State, rs: seq<Input>, i: nat)
    requires |s.board| == BOARD_SIZE && i < |rs|
    ensures Run(s, rs[..i + 1]) == Step(Run(s, rs[..i]), rs[i])
  {
    assert rs[..i + 1][..i] == rs[..i];
  }

  lemma {:induction false} RunWhole(s: State, rs: seq<Input>, i: nat)
    requires |s.board| == BOARD_SIZE && i == |rs|
    ensures Run(s, rs[..i]) == Run(s, rs)
  {
    assert rs[..i] == rs;
  }

  /** The state in which `main_loop` starts: nothing sampled, empty tables. */
  function Initial(board: seq<ProcessInfo>): State {
    State(Nil, map[], true, NO_SYS_INFO, board, 1, [], [])
  }
}
