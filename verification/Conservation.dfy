/**
 How the energy of the processes relates to the energy of the devices: summed over all
 processes and over the rounds of a window.
 */
module Conservation {
  import opened Arithmetic
  import opened Floats
  import opened Tables
  import opened AvlShape
  import opened Outputs
  import opened Log
  import opened Energy

  // ----------------------------------------- from processes to rounds

  /** All rows in the window, of whatever process. */
  function InWindowRows(rows: seq<ProcessInfo>, length: int, now: int): seq<ProcessInfo> {
    if rows == [] then []
    else (if InWindow(rows[0].time, length, now) then [rows[0]] else []) + InWindowRows(rows[1..], length, now)
  }

  function RealSum(pids: seq<int>, figure: int -> real): real {
    if pids == [] then 0.0 else RealSum(pids[..|pids| - 1], figure) + figure(pids[|pids| - 1])
  }

  /** What the query for one process gives. */
  function QueryFigure(rows: seq<ProcessInfo>, e: ProcessInfo -> real, length: int, now: int): int -> real {
    pid => Total(SelectPs(rows, pid, length, now), e)
  }

  /** A figure summed over processes, each with its own query. */
  function PerProcess(pids: seq<int>, rows: seq<ProcessInfo>, e: ProcessInfo -> real, length: int, now: int): real {
    RealSum(pids, QueryFigure(rows, e, length, now))
  }

  /** A figure that differs for one process only. */
  lemma {:induction false} RealSumDiffersAt(pids: seq<int>, a: int -> real, b: int -> real, k: int, d: real)
    requires NoDuplicates(pids)
    requires forall pid :: a(pid) == b(pid) + (if pid == k then d else 0.0)
    ensures RealSum(pids, a) == RealSum(pids, b) + (if k in pids then d else 0.0)
  {
    if pids != [] {
      var n := |pids| - 1;
      RealSumDiffersAt(pids[..n], a, b, k, d);
      assert pids == pids[..n] + [pids[n]] && pids[n] !in pids[..n];
    }
  }

  lemma {:induction false} TotalConcat(a: seq<ProcessInfo>, b: seq<ProcessInfo>, e: ProcessInfo -> real)
    ensures Total(a + b, e) == Total(a, e) + Total(b, e)
  {
    if b == [] {
      assert a + b == a;
    } else {
      var n := |b| - 1;
      TotalConcat(a, b[..n], e);
      assert (a + b)[..|a + b| - 1] == a + b[..n];
    }
  }

  lemma {:induction false} TotalOne(x: ProcessInfo, e: ProcessInfo -> real)
    ensures Total([x], e) == e(x)
  {
    assert [x][..0] == [];
  }

  lemma {:induction false} SelectedTotalCons(x: ProcessInfo, rest: seq<ProcessInfo>, pid: int,
                                             e: ProcessInfo -> real, length: int, now: int)
    ensures Total(SelectPs([x] + rest, pid, length, now), e) ==
            Total(SelectPs(rest, pid, length, now), e)
            + (if x.pid == pid && InWindow(x.time, length, now) then e(x) else 0.0)
  {
    var sel := SelectPs(rest, pid, length, now);
    assert ([x] + rest)[1..] == rest;
    if x.pid == pid && InWindow(x.time, length, now) {
      TotalConcat([x], sel, e);
      TotalOne(x, e);
    } else {
      assert [] + sel == sel;
    }
  }

  /** One more row in front changes the figure of its own process only. */
  lemma {:induction false} PerProcessCons(pids: seq<int>, x: ProcessInfo, rest: seq<ProcessInfo>,
                                          e: ProcessInfo -> real, length: int, now: int)
    requires NoDuplicates(pids)
    ensures PerProcess(pids, [x] + rest, e, length, now) ==
            PerProcess(pids, rest, e, length, now)
            + (if x.pid as int in pids && InWindow(x.time, length, now) then e(x) else 0.0)
  {
    var a, b := QueryFigure([x] + rest, e, length, now), QueryFigure(rest, e, length, now);
    var d := if InWindow(x.time, length, now) then e(x) else 0.0;
    forall pid: int
      ensures a(pid) == b(pid) + (if pid == x.pid as int then d else 0.0)
    {
      SelectedTotalCons(x, rest, pid, e, length, now);
    }
    RealSumDiffersAt(pids, a, b, x.pid, d);
  }

  lemma {:induction false} PerProcessEmpty(pids: seq<int>, e: ProcessInfo -> real, length: int, now: int)
    ensures PerProcess(pids, [], e, length, now) == 0.0
  {
    if pids != [] {
      PerProcessEmpty(pids[..|pids| - 1], e, length, now);
    }
  }

  /** Summed over all processes, each row of the window counts once. */
  lemma {:induction false} PerProcessIsWindow(pids: seq<int>, rows: seq<ProcessInfo>,
                                              e: ProcessInfo -> real, length: int, now: int)
    requires NoDuplicates(pids) && forall i :: 0 <= i < |rows| ==> rows[i].pid as int in pids
    ensures PerProcess(pids, rows, e, length, now) == Total(InWindowRows(rows, length, now), e)
  {
    if rows == [] {
      PerProcessEmpty(pids, e, length, now);
    } else {
      var x, rest := rows[0], rows[1..];
      PerProcessIsWindow(pids, rest, e, length, now);
      PerProcessCons(pids, x, rest, e, length, now);
      assert rows == [x] + rest;
      TotalConcat([x], InWindowRows(rest, length, now), e);
      TotalConcat([], InWindowRows(rest, length, now), e);
      TotalOne(x, e);
    }
  }

  // -------------------------------------------- from rounds to the window

  /** The rounds whose time is in the window. */
  function WindowBlocks(bs: seq<Block>, length: int, now: int): seq<Block> {
    if bs == [] then []
    else
      var b := bs[|bs| - 1];
      WindowBlocks(bs[..|bs| - 1], length, now) + (if InWindow(b.sys.time, length, now) then [b] else [])
  }

  function BlocksTotal(bs: seq<Block>, e: ProcessInfo -> real): real {
    if bs == [] then 0.0 else BlocksTotal(bs[..|bs| - 1], e) + Total(bs[|bs| - 1].rows, e)
  }

  ghost predicate Timed(bs: seq<Block>) {
    forall i :: 0 <= i < |bs| ==> StampedBlock(bs[i], bs[i].sys.time)
  }

  lemma {:induction false} InWindowConcat(a: seq<ProcessInfo>, b: seq<ProcessInfo>, length: int, now: int)
    ensures InWindowRows(a + b, length, now) == InWindowRows(a, length, now) + InWindowRows(b, length, now)
  {
    if a == [] {
      assert a + b == b;
    } else {
      InWindowConcat(a[1..], b, length, now);
      assert (a + b)[1..] == a[1..] + b && (a + b)[0] == a[0];
      var first := if InWindow(a[0].time, length, now) then [a[0]] else [];
      var rest, more := InWindowRows(a[1..], length, now), InWindowRows(b, length, now);
      assert first + (rest + more) == first + rest + more;
    }
  }

  lemma {:induction false} InWindowWhole(rows: seq<ProcessInfo>, time: int, length: int, now: int)
    requires forall i :: 0 <= i < |rows| ==> rows[i].time == time
    ensures InWindowRows(rows, length, now) == if InWindow(time, length, now) then rows else []
  {
    if rows != [] {
      InWindowWhole(rows[1..], time, length, now);
      assert rows == [rows[0]] + rows[1..];
    }
  }

  lemma {:induction false} WindowSnoc(bs: seq<Block>, b: Block, length: int, now: int)
    ensures WindowBlocks(bs + [b], length, now) ==
            if InWindow(b.sys.time, length, now) then WindowBlocks(bs, length, now) + [b]
            else WindowBlocks(bs, length, now)
  {
    assert (bs + [b])[..|bs|] == bs;
  }

  lemma {:induction false} BlocksTotalSnoc(bs: seq<Block>, b: Block, e: ProcessInfo -> real)
    ensures BlocksTotal(bs + [b], e) == BlocksTotal(bs, e) + Total(b.rows, e)
    ensures RowsIn(bs + [b]) == RowsIn(bs) + b.rows && SysIn(bs + [b]) == SysIn(bs) + [b.sys]
  {
    assert (bs + [b])[..|bs|] == bs;
  }

  /** The rows of the window are those of the rounds in the window. */
  lemma {:induction false} WindowOfRows(bs: seq<Block>, e: ProcessInfo -> real, length: int, now: int)
    requires Timed(bs)
    ensures Total(InWindowRows(RowsIn(bs), length, now), e) == BlocksTotal(WindowBlocks(bs, length, now), e)
  {
    if bs != [] {
      var init, b := bs[..|bs| - 1], bs[|bs| - 1];
      WindowOfRows(init, e, length, now);
      assert bs == init + [b];
      WindowRowsSnoc(init, b, e, length, now);
      WindowSnoc(init, b, length, now);
      if InWindow(b.sys.time, length, now) {
        BlocksTotalSnoc(WindowBlocks(init, length, now), b, e);
      }
    }
  }

  lemma {:induction false} WindowRowsSnoc(bs: seq<Block>, b: Block, e: ProcessInfo -> real, length: int, now: int)
    requires StampedBlock(b, b.sys.time)
    ensures Total(InWindowRows(RowsIn(bs + [b]), length, now), e) ==
            Total(InWindowRows(RowsIn(bs), length, now), e)
            + (if InWindow(b.sys.time, length, now) then Total(b.rows, e) else 0.0)
  {
    BlocksTotalSnoc(bs, b, e);
    InWindowConcat(RowsIn(bs), b.rows, length, now);
    InWindowWhole(b.rows, b.sys.time, length, now);
    TotalConcat(InWindowRows(RowsIn(bs), length, now), InWindowRows(b.rows, length, now), e);
  }

  lemma {:induction false} WindowOfSys(bs: seq<Block>, length: int, now: int)
    ensures SelectSys(SysIn(bs), length, now) == SysIn(WindowBlocks(bs, length, now))
    ensures forall b :: b in WindowBlocks(bs, length, now) ==> b in bs && InWindow(b.sys.time, length, now)
  {
    if bs != [] {
      var init, b := bs[..|bs| - 1], bs[|bs| - 1];
      WindowOfSys(init, length, now);
      SelectSysConcat(SysIn(init), [b.sys], length, now);
      assert bs == init + [b];
      WindowSnoc(init, b, length, now);
      if InWindow(b.sys.time, length, now) {
        var w := WindowBlocks(init, length, now);
        assert (w + [b])[..|w|] == w;
      } else {
        assert SelectSys(SysIn(init), length, now) + [] == SelectSys(SysIn(init), length, now);
      }
    }
  }

  // ---------------------------------------------- bounds round by round

  /** In every round the rows add up to the device figure plus something from `low` to `high`. */
  ghost predicate Bracketed(bs: seq<Block>, e: ProcessInfo -> real, dev: SysInfo -> real,
                            low: Block -> real, high: Block -> real) {
    forall i :: 0 <= i < |bs| ==> BlockBracketed(bs[i], e, dev, low, high)
  }

  predicate BlockBracketed(b: Block, e: ProcessInfo -> real, dev: SysInfo -> real,
                           low: Block -> real, high: Block -> real) {
    dev(b.sys) + low(b) <= Total(b.rows, e) <= dev(b.sys) + high(b)
  }

  function OverBlocks(bs: seq<Block>, f: Block -> real): real {
    if bs == [] then 0.0 else OverBlocks(bs[..|bs| - 1], f) + f(bs[|bs| - 1])
  }

  lemma {:induction false} BracketedTotals(bs: seq<Block>, e: ProcessInfo -> real, dev: SysInfo -> real,
                                           low: Block -> real, high: Block -> real)
    requires Bracketed(bs, e, dev, low, high)
    ensures DeviceTotal(SysIn(bs), dev) + OverBlocks(bs, low) <= BlocksTotal(bs, e)
            <= DeviceTotal(SysIn(bs), dev) + OverBlocks(bs, high)
  {
    if bs != [] {
      var init, b := bs[..|bs| - 1], bs[|bs| - 1];
      BracketedTotals(init, e, dev, low, high);
      assert bs == init + [b];
      BlocksTotalSnoc(init, b, e);
      assert (SysIn(init) + [b.sys])[..|SysIn(init)|] == SysIn(init);
      assert BlockBracketed(b, e, dev, low, high);
    }
  }

  lemma {:induction false} PerProcessSame(pids: seq<int>, a: seq<ProcessInfo>, b: seq<ProcessInfo>,
                                          e: ProcessInfo -> real, length: int, now: int)
    requires forall pid: int :: SelectPs(a, pid, length, now) == SelectPs(b, pid, length, now)
    ensures PerProcess(pids, a, e, length, now) == PerProcess(pids, b, e, length, now)
  {
    if pids != [] {
      PerProcessSame(pids[..|pids| - 1], a, b, e, length, now);
    }
  }

  /** The processes of the list are distinct and include every process that has a row. */
  ghost predicate AllProcesses(pids: seq<int>, bs: seq<Block>) {
    NoDuplicates(pids) && forall i :: 0 <= i < |RowsIn(bs)| ==> RowsIn(bs)[i].pid as int in pids
  }

  /** Summed over all processes, by queries on the tables, a figure is that of the rounds in the window. */
  lemma {:induction false} QueriesAreWindow(pids: seq<int>, t: Store, bs: seq<Block>, e: ProcessInfo -> real,
                                            dev: SysInfo -> real, length: int, now: int)
    requires Timed(bs) && AllProcesses(pids, bs) && SameToQueries(t, bs, length, now)
    ensures PerProcess(pids, t.processInfo, e, length, now) == BlocksTotal(WindowBlocks(bs, length, now), e)
    ensures DeviceTotal(SelectSys(t.sysInfo, length, now), dev) ==
            DeviceTotal(SysIn(WindowBlocks(bs, length, now)), dev)
  {
    PerProcessSame(pids, t.processInfo, RowsIn(bs), e, length, now);
    PerProcessIsWindow(pids, RowsIn(bs), e, length, now);
    WindowOfRows(bs, e, length, now);
    WindowOfSys(bs, length, now);
  }

  /**
   A figure summed over all processes, by queries on the tables, lies as close to the device
   figure of the same window as the rounds in the window allow.
   */
  lemma {:induction false} QueriesBracketed(pids: seq<int>, t: Store, bs: seq<Block>,
                                            e: ProcessInfo -> real, dev: SysInfo -> real,
                                            low: Block -> real, high: Block -> real, length: int, now: int)
    requires Timed(bs) && AllProcesses(pids, bs) && SameToQueries(t, bs, length, now)
    requires Bracketed(WindowBlocks(bs, length, now), e, dev, low, high)
    ensures var sum := PerProcess(pids, t.processInfo, e, length, now);
            var device := DeviceTotal(SelectSys(t.sysInfo, length, now), dev);
            var w := WindowBlocks(bs, length, now);
            device + OverBlocks(w, low) <= sum <= device + OverBlocks(w, high)
  {
    QueriesAreWindow(pids, t, bs, e, dev, length, now);
    BracketedTotals(WindowBlocks(bs, length, now), e, dev, low, high);
  }

  // --------------------------------------------------------------------- disk

  /** The disk totals of the round are the sums over its rows. */
  predicate DiskInStep(b: Block) {
    b.sys.totaldiskread == NetRead(b.rows) && b.sys.totaldiskwrite == NetWritten(b.rows)
  }

  function KbRead(rows: seq<ProcessInfo>): int {
    if rows == [] then 0 else rows[0].readBytes / 1024 + KbRead(rows[1..])
  }

  function KbWritten(rows: seq<ProcessInfo>): int {
    if rows == [] then 0 else Energy.Written(rows[0]) / 1024 + KbWritten(rows[1..])
  }

  lemma {:induction false} TotalCons(rows: seq<ProcessInfo>, e: ProcessInfo -> real)
    requires rows != []
    ensures Total(rows, e) == e(rows[0]) + Total(rows[1..], e)
  {
    assert rows == [rows[0]] + rows[1..];
    TotalConcat([rows[0]], rows[1..], e);
    TotalOne(rows[0], e);
  }

  lemma {:induction false} DiskOfRows(rows: seq<ProcessInfo>)
    ensures Total(rows, DiskRow) == DiskKb(KbRead(rows), KbWritten(rows))
  {
    if rows != [] {
      DiskOfRows(rows[1..]);
      TotalCons(rows, DiskRow);
    }
  }

  lemma {:induction false} FloorAdd(a: int, b: int, d: int)
    requires d > 0
    ensures a / d + b / d <= (a + b) / d <= a / d + b / d + 1
  {
    var q, r := a / d + b / d, a % d + b % d;
    assert a + b == q * d + r;
    if r < d {
      DivModUnique(a + b, q, r, d);
    } else {
      DivModUnique(a + b, q + 1, r - d, d);
    }
  }

  /** Dividing row by row loses less than one kilobyte for each row but one. */
  lemma {:induction false} FloorsOfRows(rows: seq<ProcessInfo>)
    ensures KbRead(rows) <= NetRead(rows) / 1024 <= KbRead(rows) + Max(|rows| - 1, 0)
    ensures KbWritten(rows) <= NetWritten(rows) / 1024 <= KbWritten(rows) + Max(|rows| - 1, 0)
  {
    if |rows| == 1 {
      assert rows[1..] == [];
    } else if rows != [] {
      FloorsOfRows(rows[1..]);
      FloorAdd(rows[0].readBytes, NetRead(rows[1..]), 1024);
      FloorAdd(Energy.Written(rows[0]), NetWritten(rows[1..]), 1024);
    }
  }

  function Nothing(b: Block): real {
    0.0
  }

  /** One kilobyte read and one written for each row of the round but one. */
  function MinusKbPerExtraRow(b: Block): real {
    -(Max(|b.rows| - 1, 0) as real * (EDISKRPERKB + EDISKWPERKB))
  }

  lemma {:induction false} DiskKbBracket(a: int, b: int, u: int, v: int, n: nat)
    requires a <= u <= a + n && b <= v <= b + n
    ensures DiskKb(u, v) - n as real * (EDISKRPERKB + EDISKWPERKB) <= DiskKb(a, b) <= DiskKb(u, v)
  {
    var r, w := u - a, v - b;
    assert DiskKb(u, v) - DiskKb(a, b) == r as real * EDISKRPERKB + w as real * EDISKWPERKB;
  }

  lemma {:induction false} DiskBlock(b: Block)
    requires DiskInStep(b)
    ensures BlockBracketed(b, DiskRow, DeviceDisk, MinusKbPerExtraRow, Nothing)
  {
    DiskOfRows(b.rows);
    FloorsOfRows(b.rows);
    DiskKbBracket(KbRead(b.rows), KbWritten(b.rows), NetRead(b.rows) / 1024, NetWritten(b.rows) / 1024,
                  Max(|b.rows| - 1, 0));
  }

  // ------------------------------------------------------------------- memory

  /** The part of the device's memory figure that stands for disk transfers. */
  function DeviceDma(s: SysInfo): real {
    LineEnergy((s.totaldiskread / L2CACHE_LINE_SIZE + s.totaldiskwrite / L2CACHE_LINE_SIZE) as real)
  }

  /** Just under two cache lines: 127 bytes read and 127 written too few to fill one. */
  const ALMOST_TWO: real := 254.0 / 128.0

  function AlmostTwoLines(b: Block): real {
    LineEnergy(ALMOST_TWO)
  }

  /** What the figures for memory may differ by: just less than two lines a round. */
  function Slack(rounds: nat): real {
    rounds as real * LineEnergy(ALMOST_TWO)
  }

  /** Over any rounds it is that much for each of them. */
  lemma {:induction false} AlmostTwoAddsUp(bs: seq<Block>)
    ensures OverBlocks(bs, AlmostTwoLines) == Slack(|bs|)
  {
    if bs != [] {
      AlmostTwoAddsUp(bs[..|bs| - 1]);
    }
  }

  function Lines(bytes: int): real {
    bytes as real / L2CACHE_LINE_SIZE as real
  }

  lemma {:induction false} LinesAdd(a: int, b: int)
    ensures Lines(a) + Lines(b) == Lines(a + b)
  {
  }

  lemma {:induction false} DmaOfRows(rows: seq<ProcessInfo>)
    ensures Total(rows, DmaRow) == LineEnergy(Lines(NetRead(rows) + NetWritten(rows)))
  {
    if rows != [] {
      DmaOfRows(rows[1..]);
      TotalCons(rows, DmaRow);
      LinesAdd(rows[0].readBytes, Energy.Written(rows[0]));
      LinesAdd(rows[0].readBytes + Energy.Written(rows[0]), NetRead(rows[1..]) + NetWritten(rows[1..]));
    }
  }

  lemma {:induction false} LinesFloor(bytes: int)
    ensures (bytes / L2CACHE_LINE_SIZE) as real <= Lines(bytes) <= (bytes / L2CACHE_LINE_SIZE) as real + 127.0 / 128.0
  {
    var q, r := bytes / 128, bytes % 128;
    assert bytes == 128 * q + r;
    assert Lines(bytes) == q as real + r as real / 128.0;
  }

  /** On the device the lines are floored, so here the processes are not below the device. */
  lemma {:induction false} DmaBlock(b: Block)
    requires DiskInStep(b)
    ensures BlockBracketed(b, DmaRow, DeviceDma, Nothing, AlmostTwoLines)
  {
    DmaOfRows(b.rows);
    LinesAdd(NetRead(b.rows), NetWritten(b.rows));
    LinesFloor(NetRead(b.rows));
    LinesFloor(NetWritten(b.rows));
  }

  function AccessRow(r: ProcessInfo): real {
    LineEnergy(r.cpuAccesses as real)
  }

  lemma {:induction false} MemoryIsDmaAndAccesses(rows: seq<ProcessInfo>)
    ensures Total(rows, MemoryRow) == Total(rows, DmaRow) + Total(rows, AccessRow)
  {
    if rows != [] {
      MemoryIsDmaAndAccesses(rows[..|rows| - 1]);
    }
  }

  // ---------------------------------------------------------------- processor

  function Ticks(ts: seq<nat>): nat {
    if ts == [] then 0 else ts[0] + Ticks(ts[1..])
  }

  /** The percentages of a round are of the interval `q`. */
  predicate PercentagesOf(b: Block, ts: seq<nat>, q: nat) {
    |ts| == |b.rows| && forall i :: 0 <= i < |ts| ==> b.rows[i].cpu == Percent(ts[i], q)
  }

  /**
   When the figures of a round are finite and within the device's: the percentages are of a
   positive interval, some time went by, and the ticks, brought from that interval to the
   busy time of the system row, are no more than the time that went by.
   */
  predicate TimesFit(b: Block, ts: seq<nat>, q: nat) {
    b.rows == []
    || (0 < q && 0 < b.sys.itv && (b.sys.cpupower == 0.0 || Ticks(ts) * b.sys.runtime <= q * b.sys.itv))
  }

  predicate TimeInOrder(b: Block, ts: seq<nat>, q: nat) {
    PercentagesOf(b, ts, q) && b.sys.cpupower >= 0.0 && TimesFit(b, ts, q)
  }

  /** The figure of one row, given the system rows of its time; 0 if it is not finite. */
  function CpuShareIn(sys: seq<SysInfo>): ProcessInfo -> real {
    (r: ProcessInfo) => Key(CpuTotal(JoinRow(r.cpu, AtTime(sys, r.time))))
  }

  ghost predicate CpuFinite(rows: seq<ProcessInfo>, sys: seq<SysInfo>) {
    forall i :: 0 <= i < |rows| ==> CpuTotal(JoinRow(rows[i].cpu, AtTime(sys, rows[i].time))).Fin?
  }

  lemma {:induction false} JoinedTotalConcat(a: seq<Joined>, b: seq<Joined>, e: Joined -> Float)
    requires JoinedTotal(a, e).Fin? && JoinedTotal(b, e).Fin?
    ensures JoinedTotal(a + b, e) == Fin(JoinedTotal(a, e).v + JoinedTotal(b, e).v)
  {
    if b == [] {
      assert a + b == a;
    } else {
      var n := |b| - 1;
      JoinedTotalConcat(a, b[..n], e);
      assert (a + b)[..|a + b| - 1] == a + b[..n];
    }
  }

  lemma {:induction false} CpuOfRows(rows: seq<ProcessInfo>, sys: seq<SysInfo>)
    requires CpuFinite(rows, sys)
    ensures CpuTotal(Join(rows, sys)) == Fin(Total(rows, CpuShareIn(sys)))
  {
    if rows != [] {
      CpuOfRows(rows[1..], sys);
      TotalCons(rows, CpuShareIn(sys));
      JoinedTotalConcat(JoinRow(rows[0].cpu, AtTime(sys, rows[0].time)), Join(rows[1..], sys), CpuRow);
    }
  }

  /** The power that one tick stands for in a row whose percentage is of `q`. */
  function TickPower(q: nat, s: SysInfo): real
    requires q > 0 && s.itv > 0
  {
    s.cpupower * (s.runtime as real / (q as real * s.itv as real))
  }

  lemma {:induction false} PercentTimesPower(ticks: nat, q: nat, s: SysInfo)
    requires q > 0 && s.itv > 0
    ensures CpuRow(Joined(Percent(ticks, q), s)) == Fin(Share(ticks, TickPower(q, s)))
  {
    PercentValue(ticks, q);
    QuotientsCancel(ticks as real, q as real, s.runtime as real, s.itv as real, s.cpupower);
  }

  lemma {:induction false} QuotientsCancel(t: real, q: real, r: real, i: real, p: real)
    requires q > 0.0 && i > 0.0
    ensures q * i > 0.0
    ensures t * (100.0 / q) * p * (r / i) / 100.0 == t * (p * (r / (q * i)))
  {
    var x, y := 1.0 / q, 1.0 / i;
    assert x * q == 1.0 && y * i == 1.0;
    assert 100.0 / q == 100.0 * x && r / i == r * y;
    QuotientOfProduct(r, q, i, x, y);
    assert t * (100.0 * x) * p * (r * y) == 100.0 * (t * (p * (r * (x * y))));
  }

  lemma {:induction false} QuotientOfProduct(r: real, q: real, i: real, x: real, y: real)
    requires q > 0.0 && i > 0.0 && x * q == 1.0 && y * i == 1.0
    ensures q * i > 0.0 && r / (q * i) == r * (x * y)
  {
    assert (x * y) * (q * i) == (x * q) * (y * i) == 1.0;
    assert r * (x * y) * (q * i) == r;
  }

  /** The figure of a row is finite only for positive intervals. */
  lemma {:induction false} FigureFiniteIff(ticks: nat, q: nat, s: SysInfo)
    ensures CpuRow(Joined(Percent(ticks, q), s)).Fin? <==> q > 0 && s.itv > 0
  {
    PercentValue(ticks, q);
  }

  function Share(ticks: nat, power: real): real {
    ticks as real * power
  }

  lemma {:induction false} ShareAdds(a: nat, b: nat, power: real)
    ensures Share(a, power) + Share(b, power) == Share(a + b, power)
  {
  }

  /** Within a round the shares add up to the power of a tick times the ticks. */
  lemma {:induction false} SharesOfRows(rows: seq<ProcessInfo>, ts: seq<nat>, power: real, sys: seq<SysInfo>)
    requires |ts| == |rows|
    requires forall i :: 0 <= i < |rows| ==> CpuShareIn(sys)(rows[i]) == Share(ts[i], power)
    ensures Total(rows, CpuShareIn(sys)) == Share(Ticks(ts), power)
  {
    if rows != [] {
      SharesOfRows(rows[1..], ts[1..], power, sys);
      TotalCons(rows, CpuShareIn(sys));
      ShareAdds(ts[0], Ticks(ts[1..]), power);
    }
  }

  lemma {:induction false} OneJoined(cpu: Float, s: SysInfo, e: Joined -> Float)
    ensures JoinedTotal(JoinRow(cpu, [s]), e) == Add(Fin(0.0), e(Joined(cpu, s)))
  {
    var j := Joined(cpu, s);
    assert JoinRow(cpu, [s]) == [j];
    assert [j][..0] == [];
    assert JoinedTotal([j], e) == Add(JoinedTotal([], e), e(j));
  }

  /** The ticks, brought from the interval `q` to the busy time, as a fraction of all time. */
  function Fraction(a: nat, q: nat, s: SysInfo): real
    requires q > 0 && s.itv > 0
  {
    a as real * (s.runtime as real / (q as real * s.itv as real))
  }

  lemma {:induction false} ShareIsFraction(a: nat, q: nat, s: SysInfo)
    requires q > 0 && s.itv > 0
    ensures Share(a, TickPower(q, s)) == s.cpupower * Fraction(a, q, s)
  {
  }

  lemma {:induction false} FractionTimes(a: nat, q: nat, s: SysInfo)
    requires q > 0 && s.itv > 0
    ensures q * s.itv > 0 && Fraction(a, q, s) >= 0.0
    ensures Fraction(a, q, s) * (q * s.itv) as real == (a * s.runtime) as real
  {
    var m, x := (q * s.itv) as real, s.runtime as real;
    assert q * s.itv > 0 && m == q as real * s.itv as real;
    var w := x / m;
    assert w * m == x && w >= 0.0;
    var f := a as real * w;
    assert f >= 0.0 && Fraction(a, q, s) == f;
    assert f * m == a as real * (w * m) == a as real * x == (a * s.runtime) as real;
  }

  lemma {:induction false} FractionAtMostOneIff(a: nat, q: nat, s: SysInfo)
    requires q > 0 && s.itv > 0
    ensures Fraction(a, q, s) >= 0.0
    ensures Fraction(a, q, s) <= 1.0 <==> a * s.runtime <= q * s.itv
  {
    FractionTimes(a, q, s);
    FractionIff(Fraction(a, q, s), (q * s.itv) as real, a * s.runtime, q * s.itv);
  }

  /** A share is within the power iff its ticks are within the time. */
  lemma {:induction false} ShareWithinIff(a: nat, q: nat, s: SysInfo)
    requires q > 0 && s.itv > 0 && s.cpupower >= 0.0
    ensures Share(a, TickPower(q, s)) >= 0.0
    ensures Share(a, TickPower(q, s)) <= s.cpupower <==> s.cpupower == 0.0 || a * s.runtime <= q * s.itv
  {
    ShareIsFraction(a, q, s);
    FractionAtMostOneIff(a, q, s);
    PartOfPowerIff(Fraction(a, q, s), s.cpupower);
  }

  lemma {:induction false} FractionIff(f: real, m: real, a: int, n: int)
    requires n > 0 && m == n as real && f * m == a as real
    ensures f <= 1.0 <==> a <= n
  {
    assert (1.0 - f) * m == (n - a) as real;
  }

  lemma {:induction false} PartOfPowerIff(f: real, p: real)
    requires p >= 0.0 && f >= 0.0
    ensures p * f >= 0.0
    ensures p * f <= p <==> p == 0.0 || f <= 1.0
  {
    assert p - p * f == p * (1.0 - f);
  }

  // ------------------------------------------- the join picks the right round

  /** Rounds have different times. */
  ghost predicate Distinct(bs: seq<Block>) {
    Timed(bs) && forall i, j :: 0 <= i < j < |bs| ==> bs[i].sys.time < bs[j].sys.time
  }

  lemma {:induction false} AtTimeConcat(a: seq<SysInfo>, x: SysInfo, time: int)
    ensures AtTime(a + [x], time) == AtTime(a, time) + (if x.time == time then [x] else [])
  {
    if a == [] {
      assert a + [x] == [x];
    } else {
      AtTimeConcat(a[1..], x, time);
      assert (a + [x])[1..] == a[1..] + [x];
    }
  }

  lemma {:induction false} AtTimeOfBlocks(bs: seq<Block>, time: int)
    requires Distinct(bs)
    ensures (forall i :: 0 <= i < |bs| ==> bs[i].sys.time != time) ==> AtTime(SysIn(bs), time) == []
    ensures forall i :: 0 <= i < |bs| && bs[i].sys.time == time ==> AtTime(SysIn(bs), time) == [bs[i].sys]
  {
    if bs != [] {
      var init, b := bs[..|bs| - 1], bs[|bs| - 1];
      AtTimeOfBlocks(init, time);
      AtTimeConcat(SysIn(init), b.sys, time);
      assert forall i :: 0 <= i < |init| ==> init[i] == bs[i];
    }
  }

  function MinusPower(b: Block): real {
    -b.sys.cpupower
  }

  /** The round of a block is the only one of its time. */
  predicate OwnRound(b: Block, sys: seq<SysInfo>) {
    StampedBlock(b, b.sys.time) && AtTime(sys, b.sys.time) == [b.sys]
  }

  lemma {:induction false} SharesOfBlock(b: Block, ts: seq<nat>, q: nat, sys: seq<SysInfo>)
    requires PercentagesOf(b, ts, q) && OwnRound(b, sys) && q > 0 && b.sys.itv > 0
    ensures CpuFinite(b.rows, sys)
    ensures Total(b.rows, CpuShareIn(sys)) == Share(Ticks(ts), TickPower(q, b.sys))
  {
    forall i | 0 <= i < |b.rows|
      ensures CpuTotal(JoinRow(b.rows[i].cpu, AtTime(sys, b.rows[i].time))) == Fin(Share(ts[i], TickPower(q, b.sys)))
    {
      OneJoined(b.rows[i].cpu, b.sys, CpuRow);
      PercentTimesPower(ts[i], q, b.sys);
    }
    SharesOfRows(b.rows, ts, TickPower(q, b.sys), sys);
  }

  lemma {:induction false} BlockFiniteIff(b: Block, ts: seq<nat>, q: nat, sys: seq<SysInfo>)
    requires PercentagesOf(b, ts, q) && OwnRound(b, sys)
    ensures CpuFinite(b.rows, sys) <==> b.rows == [] || (q > 0 && b.sys.itv > 0)
  {
    forall i | 0 <= i < |b.rows|
      ensures CpuTotal(JoinRow(b.rows[i].cpu, AtTime(sys, b.rows[i].time))).Fin? <==> q > 0 && b.sys.itv > 0
    {
      OneJoined(b.rows[i].cpu, b.sys, CpuRow);
      FigureFiniteIff(ts[i], q, b.sys);
    }
    if b.rows != [] && CpuFinite(b.rows, sys) {
      assert CpuTotal(JoinRow(b.rows[0].cpu, AtTime(sys, b.rows[0].time))).Fin?;
    }
  }

  lemma {:induction false} TotalWithinIff(b: Block, ts: seq<nat>, q: nat, sys: seq<SysInfo>)
    requires PercentagesOf(b, ts, q) && OwnRound(b, sys) && q > 0 && b.sys.itv > 0 && b.sys.cpupower >= 0.0
    ensures var sum := Total(b.rows, CpuShareIn(sys));
            && 0.0 <= sum
            && (sum <= b.sys.cpupower <==> b.sys.cpupower == 0.0 || Ticks(ts) * b.sys.runtime <= q * b.sys.itv)
  {
    SharesOfBlock(b, ts, q, sys);
    ShareWithinIff(Ticks(ts), q, b.sys);
  }

  /** The figures of the round are finite, and together at most the device's. */
  ghost predicate CpuWithin(b: Block, sys: seq<SysInfo>) {
    CpuFinite(b.rows, sys) && Total(b.rows, CpuShareIn(sys)) <= CpuPower(b.sys)
  }

  /** The device figure is not exceeded exactly if the times fit, and the shares are not negative then. */
  lemma {:induction false} CpuBlockIff(b: Block, ts: seq<nat>, q: nat, sys: seq<SysInfo>)
    requires PercentagesOf(b, ts, q) && OwnRound(b, sys) && b.sys.cpupower >= 0.0
    ensures CpuWithin(b, sys) <==> TimesFit(b, ts, q)
    ensures CpuFinite(b.rows, sys) ==> Total(b.rows, CpuShareIn(sys)) >= 0.0
  {
    BlockFiniteIff(b, ts, q, sys);
    if q > 0 && b.sys.itv > 0 {
      TotalWithinIff(b, ts, q, sys);
    }
    if b.rows == [] {
      assert Total(b.rows, CpuShareIn(sys)) == 0.0;
    }
  }

  /** The interval of the percentages cancels the busy time: the ticks are held against all time. */
  lemma {:induction false} CpuBlockIffTicks(b: Block, ts: seq<nat>, sys: seq<SysInfo>)
    requires PercentagesOf(b, ts, b.sys.runtime) && OwnRound(b, sys)
    requires b.sys.runtime > 0 && b.sys.itv > 0 && b.sys.cpupower > 0.0
    ensures CpuFinite(b.rows, sys)
    ensures Total(b.rows, CpuShareIn(sys)) <= CpuPower(b.sys) <==> Ticks(ts) <= b.sys.itv
  {
    CpuBlockIff(b, ts, b.sys.runtime, sys);
    BlockFiniteIff(b, ts, b.sys.runtime, sys);
    CancelFactor(Ticks(ts), b.sys.itv, b.sys.runtime);
  }

  lemma {:induction false} CancelFactor(a: int, b: int, m: int)
    requires m > 0
    ensures a * m <= m * b <==> a <= b
  {
    assert m * b - a * m == (b - a) * m;
    MultipleGrows(a - b, m);
  }

  lemma {:induction false} CpuBlock(b: Block, ts: seq<nat>, q: nat, sys: seq<SysInfo>)
    requires TimeInOrder(b, ts, q) && OwnRound(b, sys)
    ensures CpuFinite(b.rows, sys)
    ensures BlockBracketed(b, CpuShareIn(sys), CpuPower, MinusPower, Nothing)
  {
    CpuBlockIff(b, ts, q, sys);
  }
}
