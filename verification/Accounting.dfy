/**
 The main statements on energy, for the tables of a run: what the queries for single
 processes add up to, against what the query for the devices gives.
 */
module Accounting {
  import opened Arithmetic
  import opened Counters
  import opened Floats
  import opened Samples
  import opened Tables
  import opened Ranking
  import opened AvlShape
  import opened Rounds
  import opened Outputs
  import opened Log
  import opened Energy
  import opened Conservation

  // -------------------------------------------------- blocks of a run

  lemma {:induction false} StampedIsDistinct(bs: seq<Block>, rs: seq<Input>)
    requires Stamped(bs, rs) && Clocked(rs)
    ensures Distinct(bs)
  {
    assert forall i :: 0 <= i < |bs| ==> StampedBlock(bs[i], rs[i].ctime);
  }

  /** The log of a run from the start, with a good clock. */
  lemma {:induction false} LogOfRun(board: seq<ProcessInfo>, rs: seq<Input>)
    requires |board| == BOARD_SIZE && Clocked(rs)
    ensures Distinct(Blocks(Initial(board), rs))
    ensures forall i :: 0 <= i < |rs| ==> Blocks(Initial(board), rs)[i].sys.time == rs[i].ctime
  {
    InitialSound(board);
    BlocksStamped(Initial(board), rs);
    StampedIsDistinct(Blocks(Initial(board), rs), rs);
  }

  /** The state in which round `i` of a run starts. */
  function Before(board: seq<ProcessInfo>, rs: seq<Input>, i: nat): State
    requires |board| == BOARD_SIZE && i <= |rs|
  {
    Run(Initial(board), rs[..i])
  }

  // ---------------------------------------------------- the display's query

  lemma {:induction false} NoneInWindow(rows: seq<ProcessInfo>, pid: int, length: int, now: int)
    requires forall i :: 0 <= i < |rows| ==> rows[i].pid != pid || rows[i].time <= now - length || now < rows[i].time
    ensures SelectPs(rows, pid, length, now) == []
  {
    if rows != [] {
      NoneInWindow(rows[1..], pid, length, now);
    }
  }

  lemma {:induction false} NoSysInWindow(rows: seq<SysInfo>, length: int, now: int)
    requires forall i :: 0 <= i < |rows| ==> rows[i].time <= now - length || now < rows[i].time
    ensures SelectSys(rows, length, now) == []
  {
    if rows != [] {
      NoSysInWindow(rows[1..], length, now);
    }
  }

  /** Of rows of different processes, all of the moment, a query finds the one of its process. */
  lemma {:induction false} OneInWindow(rows: seq<ProcessInfo>, i: nat, now: int)
    requires i < |rows| && NoDuplicates(PidsOf(rows)) && forall j :: 0 <= j < |rows| ==> rows[j].time == now
    ensures SelectPs(rows, rows[i].pid, 1, now) == [rows[i]]
  {
    var x := rows[i];
    var before, after := rows[..i], rows[i + 1..];
    forall j | 0 <= j < |rows| && j != i
      ensures rows[j].pid != x.pid
    {
      assert PidsOf(rows)[j] != PidsOf(rows)[i];
    }
    NoneInWindow(before, x.pid, 1, now);
    NoneInWindow(after, x.pid, 1, now);
    SelectPsConcat(before, [x] + after, x.pid, 1, now);
    SelectPsConcat([x], after, x.pid, 1, now);
    assert rows == before + ([x] + after);
    assert SelectPs([x], x.pid, 1, now) == [x];
  }

  /** The rows of earlier rounds are older. */
  lemma {:induction false} EarlierRows(bs: seq<Block>, now: int)
    requires Timed(bs) && forall i :: 0 <= i < |bs| ==> bs[i].sys.time < now
    ensures forall i :: 0 <= i < |RowsIn(bs)| ==> RowsIn(bs)[i].time < now
    ensures forall i :: 0 <= i < |SysIn(bs)| ==> SysIn(bs)[i].time < now
  {
    if bs != [] {
      EarlierRows(bs[..|bs| - 1], now);
    }
  }

  /** Found is the row of the process, or nothing if it has none. */
  ghost predicate FindsRowOf(found: seq<ProcessInfo>, rows: seq<ProcessInfo>, pid: int) {
    && (forall i :: 0 <= i < |rows| && rows[i].pid == pid ==> found == [rows[i]])
    && (pid !in PidsOf(rows) ==> found == [])
  }

  /** A query for the last second of a log finds the last round of it, and nothing else. */
  lemma {:induction false} LastSecond(bs: seq<Block>, b: Block, pid: int, now: int)
    requires Distinct(bs + [b]) && b.sys.time == now && NoDuplicates(PidsOf(b.rows))
    ensures SelectSys(SysIn(bs + [b]), 1, now) == [b.sys]
    ensures FindsRowOf(SelectPs(RowsIn(bs + [b]), pid, 1, now), b.rows, pid)
  {
    var all := bs + [b];
    assert forall i :: 0 <= i < |bs| ==> bs[i] == all[i];
    assert all[|bs|] == b;
    EarlierRows(bs, now);
    BlocksTotalSnoc(bs, b, DiskRow);
    NoneInWindow(RowsIn(bs), pid, 1, now);
    NoSysInWindow(SysIn(bs), 1, now);
    SelectPsConcat(RowsIn(bs), b.rows, pid, 1, now);
    SelectSysConcat(SysIn(bs), [b.sys], 1, now);
    forall i | 0 <= i < |b.rows| && b.rows[i].pid == pid
      ensures SelectPs(b.rows, pid, 1, now) == [b.rows[i]]
    {
      OneInWindow(b.rows, i, now);
    }
    if pid !in PidsOf(b.rows) {
      forall j | 0 <= j < |b.rows|
        ensures b.rows[j].pid != pid
      {
        assert PidsOf(b.rows)[j] == b.rows[j].pid;
      }
      NoneInWindow(b.rows, pid, 1, now);
    }
  }

  /**
   What the display asks for, right after a round has been written and with the time of that
   round as `now`: the last second, which is the round itself, with one row for each process
   that was active in it, and no other.
   */
  lemma {:induction false} DisplaySeesLastRound(board: seq<ProcessInfo>, rs: seq<Input>, pid: int)
    requires |board| == BOARD_SIZE && Clocked(rs) && rs != []
    ensures var t, now, b := TablesAt(board, rs, true), rs[|rs| - 1].ctime, BlockAt(Initial(board), rs, |rs| - 1);
            && SelectSys(t.sysInfo, 1, now) == [b.sys]
            && FindsRowOf(SelectPs(t.processInfo, pid, 1, now), b.rows, pid)
  {
    var n := |rs| - 1;
    var bs, b := Blocks(Initial(board), rs[..n]), BlockAt(Initial(board), rs, n);
    LogOfRun(board, rs);
    BlocksSnoc(Initial(board), rs, n);
    InitialSound(board);
    RunSound(Initial(board), rs[..n]);
    OneRowPerActiveProcess(Run(Initial(board), rs[..n]), rs[n]);
    QueriesSeeWholeLog(board, rs, true, 1, rs[n].ctime);
    LastSecond(bs, b, pid, rs[n].ctime);
  }

  // ------------------------------------------------ the list of all processes

  lemma {:induction false} KeysStay(board: seq<ProcessInfo>, rs: seq<Input>, i: nat)
    requires |board| == BOARD_SIZE && i <= |rs|
    ensures Keys(Before(board, rs, i).tree) <= Keys(Run(Initial(board), rs).tree)
    decreases |rs|
  {
    if i == |rs| {
      assert rs[..i] == rs;
    } else {
      var n := |rs| - 1;
      KeysStay(board, rs[..n], i);
      assert rs[..n][..i] == rs[..i];
      StepKeepsKeys(board, rs[..n], rs[n]);
    }
  }

  lemma {:induction false} StepKeepsKeys(board: seq<ProcessInfo>, rs: seq<Input>, r: Input)
    requires |board| == BOARD_SIZE
    ensures var s := Run(Initial(board), rs);
            && Sound(s) && Keys(s.tree) <= Keys(Step(s, r).tree) && Keys(Scanned(s, r).tree) == Keys(Step(s, r).tree)
  {
    InitialSound(board);
    RunSound(Initial(board), rs);
    InsertAllOk(Run(Initial(board), rs).tree, Pids(r.listing));
  }

  lemma {:induction false} RowPidInTree(s: State, r: Input, x: ProcessInfo)
    requires Sound(s) && x in RoundRows(s, r)
    ensures x.pid as int in Keys(Scanned(s, r).tree)
  {
    OneRowPerActiveProcess(s, r);
    ScannedSound(s, r);
    var rows := RoundRows(s, r);
    var j :| 0 <= j < |rows| && rows[j] == x;
    assert PidsOf(rows)[j] == x.pid as int;
  }

  lemma {:induction false} RowPidsInTree(board: seq<ProcessInfo>, rs: seq<Input>, i: nat, x: ProcessInfo)
    requires |board| == BOARD_SIZE && i < |rs| && x in BlockAt(Initial(board), rs, i).rows
    ensures x.pid as int in Keys(Run(Initial(board), rs).tree)
  {
    StepKeepsKeys(board, rs[..i], rs[i]);
    RowPidInTree(Before(board, rs, i), rs[i], x);
    RunNext(Initial(board), rs, i);
    KeysStay(board, rs, i + 1);
  }

  /** The processes in the tree are a list as the statements below ask for. */
  lemma {:induction false} TreeListsAllProcesses(board: seq<ProcessInfo>, rs: seq<Input>)
    requires |board| == BOARD_SIZE
    ensures AllProcesses(PreOrder(Run(Initial(board), rs).tree), Blocks(Initial(board), rs))
  {
    var t, bs := Run(Initial(board), rs), Blocks(Initial(board), rs);
    InitialSound(board);
    RunSound(Initial(board), rs);
    PreOrderListsKeysOnce(t.tree);
    forall k | 0 <= k < |RowsIn(bs)|
      ensures RowsIn(bs)[k].pid as int in PreOrder(t.tree)
    {
      var x := RowsIn(bs)[k];
      RowIsOfSomeBlock(bs, x);
      var i :| 0 <= i < |bs| && x in bs[i].rows;
      RowPidsInTree(board, rs, i, x);
    }
  }

  lemma {:induction false} RowIsOfSomeBlock(bs: seq<Block>, x: ProcessInfo)
    requires x in RowsIn(bs)
    ensures exists i :: 0 <= i < |bs| && x in bs[i].rows
  {
    if bs != [] {
      var n := |bs| - 1;
      if x in bs[n].rows {
      } else {
        RowIsOfSomeBlock(bs[..n], x);
        var i :| 0 <= i < n && x in bs[..n][i].rows;
        assert x in bs[i].rows;
      }
    }
  }

  // --------------------------------------------------------------------- disk

  /** The byte counters of the active processes are in order, and these are fewer than 2^32. */
  ghost predicate BytesOk(s: State, r: Input) {
    && |RoundRows(s, r)| < TWO32
    && AllBytesInOrder(PreOrder(Scanned(s, r).tree), Scanned(s, r).entries, s.curr)
  }

  lemma {:induction false} BytesInStep(s: State, r: Input)
    requires |s.board| == BOARD_SIZE && BytesOk(s, r)
    ensures DiskInStep(BlockOf(s, r))
  {
    DiskTotalsAreSums(s, r);
  }

  ghost predicate BytesOkInWindow(board: seq<ProcessInfo>, rs: seq<Input>, length: int, now: int)
    requires |board| == BOARD_SIZE
  {
    forall i :: 0 <= i < |rs| && InWindow(rs[i].ctime, length, now) ==> BytesOk(Before(board, rs, i), rs[i])
  }

  lemma {:induction false} WindowInStep(board: seq<ProcessInfo>, rs: seq<Input>, length: int, now: int)
    requires |board| == BOARD_SIZE && Clocked(rs) && BytesOkInWindow(board, rs, length, now)
    ensures forall b :: b in WindowBlocks(Blocks(Initial(board), rs), length, now) ==> DiskInStep(b)
  {
    var bs := Blocks(Initial(board), rs);
    LogOfRun(board, rs);
    WindowOfSys(bs, length, now);
    forall b | b in WindowBlocks(bs, length, now)
      ensures DiskInStep(b)
    {
      var i :| 0 <= i < |bs| && bs[i] == b;
      assert InWindow(rs[i].ctime, length, now);
      BytesInStep(Before(board, rs, i), rs[i]);
    }
  }

  /**
   Disk energy, for every run with a good clock and every window in whose rounds the byte
   counters of the active processes are in order: the processes together do not exceed the
   device, and fall short of it by at most one kilobyte read and one written for each active
   process but one, round by round.
   */
  lemma {:induction false} DiskEnergyConserved(board: seq<ProcessInfo>, rs: seq<Input>, pids: seq<int>,
                                               early: bool, length: int, now: int)
    requires |board| == BOARD_SIZE && Clocked(rs) && Asked(rs, early, length, now)
    requires BytesOkInWindow(board, rs, length, now)
    requires AllProcesses(pids, Blocks(Initial(board), rs))
    ensures var t := TablesAt(board, rs, early);
            var sum := PerProcess(pids, t.processInfo, DiskRow, length, now);
            var device := SystemTotal(SelectSys(t.sysInfo, length, now)).edisk;
            var short := OverBlocks(WindowBlocks(Blocks(Initial(board), rs), length, now), MinusKbPerExtraRow);
            device + short <= sum <= device
  {
    var bs := Blocks(Initial(board), rs);
    var w := WindowBlocks(bs, length, now);
    LogOfRun(board, rs);
    QueriesSeeWholeLog(board, rs, early, length, now);
    WindowInStep(board, rs, length, now);
    forall i | 0 <= i < |w|
      ensures BlockBracketed(w[i], DiskRow, DeviceDisk, MinusKbPerExtraRow, Nothing)
    {
      DiskBlock(w[i]);
    }
    QueriesBracketed(pids, TablesAt(board, rs, early), bs, DiskRow, DeviceDisk, MinusKbPerExtraRow, Nothing,
                     length, now);
    NothingAddsUp(w);
  }

  lemma {:induction false} NothingAddsUp(bs: seq<Block>)
    ensures OverBlocks(bs, Nothing) == 0.0
  {
    if bs != [] {
      NothingAddsUp(bs[..|bs| - 1]);
    }
  }

  // ------------------------------------------------------------------- memory

  /**
   The disk transfers in the memory energy, for every run with a good clock and every window
   in whose rounds the byte counters of the active processes are in order: here the device does
   not exceed the processes, which are above it by at most 254 bytes for each round, just less
   than two cache lines.
   */
  lemma {:induction false} DmaEnergyBracketed(board: seq<ProcessInfo>, rs: seq<Input>, pids: seq<int>,
                                              early: bool, length: int, now: int)
    requires |board| == BOARD_SIZE && Clocked(rs) && Asked(rs, early, length, now)
    requires BytesOkInWindow(board, rs, length, now)
    requires AllProcesses(pids, Blocks(Initial(board), rs))
    ensures var t := TablesAt(board, rs, early);
            var sum := PerProcess(pids, t.processInfo, DmaRow, length, now);
            var device := DeviceTotal(SelectSys(t.sysInfo, length, now), DeviceDma);
            var rounds := |WindowBlocks(Blocks(Initial(board), rs), length, now)|;
            device <= sum <= device + Slack(rounds)
  {
    var bs := Blocks(Initial(board), rs);
    var w := WindowBlocks(bs, length, now);
    LogOfRun(board, rs);
    QueriesSeeWholeLog(board, rs, early, length, now);
    WindowInStep(board, rs, length, now);
    forall i | 0 <= i < |w|
      ensures BlockBracketed(w[i], DmaRow, DeviceDma, Nothing, AlmostTwoLines)
    {
      DmaBlock(w[i]);
    }
    QueriesBracketed(pids, TablesAt(board, rs, early), bs, DmaRow, DeviceDma, Nothing, AlmostTwoLines, length, now);
    NothingAddsUp(w);
    AlmostTwoAddsUp(w);
  }

  // ---------------------------------------------------------------- processor

  /** The processor figure of each process. */
  function CpuFigure(ps: seq<ProcessInfo>, sys: seq<SysInfo>, length: int, now: int): int -> Float {
    pid => CpuTotal(Join(SelectPs(ps, pid, length, now), sys))
  }

  function FloatSum(pids: seq<int>, figure: int -> Float): Float {
    if pids == [] then Fin(0.0) else Add(FloatSum(pids[..|pids| - 1], figure), figure(pids[|pids| - 1]))
  }

  /** The processor figures of all processes, added up. */
  function PerProcessCpu(pids: seq<int>, ps: seq<ProcessInfo>, sys: seq<SysInfo>, length: int, now: int): Float {
    FloatSum(pids, CpuFigure(ps, sys, length, now))
  }

  lemma {:induction false} FloatSumSame(pids: seq<int>, a: int -> Float, b: int -> Float)
    requires forall pid :: pid in pids ==> a(pid) == b(pid)
    ensures FloatSum(pids, a) == FloatSum(pids, b)
  {
    if pids != [] {
      FloatSumSame(pids[..|pids| - 1], a, b);
      var last := pids[|pids| - 1];
      assert last in pids && a(last) == b(last);
    }
  }

  lemma {:induction false} FloatSumFinite(pids: seq<int>, figure: int -> Float, value: int -> real)
    requires forall pid :: pid in pids ==> figure(pid) == Fin(value(pid))
    ensures FloatSum(pids, figure) == Fin(RealSum(pids, value))
  {
    if pids != [] {
      var last := pids[|pids| - 1];
      FloatSumFinite(pids[..|pids| - 1], figure, value);
      assert last in pids && figure(last) == Fin(value(last));
    }
  }

  lemma {:induction false} SelectedRows(rows: seq<ProcessInfo>, pid: int, length: int, now: int)
    ensures forall x :: x in SelectPs(rows, pid, length, now) ==> x in rows && InWindow(x.time, length, now)
  {
    if rows != [] {
      SelectedRows(rows[1..], pid, length, now);
    }
  }

  /** The join looks only at the times of the rows it joins. */
  lemma {:induction false} JoinSame(ps: seq<ProcessInfo>, a: seq<SysInfo>, b: seq<SysInfo>)
    requires forall x :: x in ps ==> AtTime(a, x.time) == AtTime(b, x.time)
    ensures Join(ps, a) == Join(ps, b)
  {
    if ps != [] {
      assert ps[0] in ps;
      JoinSame(ps[1..], a, b);
    }
  }

  /** Every round in the window has its times in order. */
  ghost predicate TimesInOrder(bs: seq<Block>, length: int, now: int) {
    forall i :: 0 <= i < |bs| && InWindow(bs[i].sys.time, length, now) ==> HasTimesInOrder(bs[i])
  }

  ghost predicate HasTimesInOrder(b: Block) {
    exists ts: seq<nat>, q: nat :: TimeInOrder(b, ts, q)
  }

  lemma {:induction false} WindowShares(bs: seq<Block>, i: nat, length: int, now: int)
    requires Distinct(bs) && TimesInOrder(bs, length, now)
    requires i < |bs| && InWindow(bs[i].sys.time, length, now)
    ensures CpuFinite(bs[i].rows, SysIn(bs))
    ensures BlockBracketed(bs[i], CpuShareIn(SysIn(bs)), CpuPower, MinusPower, Nothing)
  {
    assert HasTimesInOrder(bs[i]);
    var ts: seq<nat>, q: nat :| TimeInOrder(bs[i], ts, q);
    AtTimeOfBlocks(bs, bs[i].sys.time);
    CpuBlock(bs[i], ts, q, SysIn(bs));
  }

  lemma {:induction false} SelectedFinite(bs: seq<Block>, pid: int, length: int, now: int)
    requires Distinct(bs) && TimesInOrder(bs, length, now)
    ensures CpuFinite(SelectPs(RowsIn(bs), pid, length, now), SysIn(bs))
  {
    var sel := SelectPs(RowsIn(bs), pid, length, now);
    SelectedRows(RowsIn(bs), pid, length, now);
    forall j | 0 <= j < |sel|
      ensures CpuTotal(JoinRow(sel[j].cpu, AtTime(SysIn(bs), sel[j].time))).Fin?
    {
      assert sel[j] in RowsIn(bs);
      RowIsOfSomeBlock(bs, sel[j]);
      var i :| 0 <= i < |bs| && sel[j] in bs[i].rows;
      assert StampedBlock(bs[i], bs[i].sys.time);
      WindowShares(bs, i, length, now);
    }
  }

  lemma {:induction false} CpuSumIsPerProcess(pids: seq<int>, bs: seq<Block>, length: int, now: int)
    requires Distinct(bs) && TimesInOrder(bs, length, now)
    ensures PerProcessCpu(pids, RowsIn(bs), SysIn(bs), length, now) ==
            Fin(PerProcess(pids, RowsIn(bs), CpuShareIn(SysIn(bs)), length, now))
  {
    var figure := CpuFigure(RowsIn(bs), SysIn(bs), length, now);
    var value := QueryFigure(RowsIn(bs), CpuShareIn(SysIn(bs)), length, now);
    forall pid | pid in pids
      ensures figure(pid) == Fin(value(pid))
    {
      CpuOfSelection(bs, pid, length, now);
    }
    FloatSumFinite(pids, figure, value);
  }

  lemma {:induction false} CpuOfSelection(bs: seq<Block>, pid: int, length: int, now: int)
    requires Distinct(bs) && TimesInOrder(bs, length, now)
    ensures CpuTotal(Join(SelectPs(RowsIn(bs), pid, length, now), SysIn(bs))) ==
            Fin(Total(SelectPs(RowsIn(bs), pid, length, now), CpuShareIn(SysIn(bs))))
  {
    SelectedFinite(bs, pid, length, now);
    CpuOfRows(SelectPs(RowsIn(bs), pid, length, now), SysIn(bs));
  }

  lemma {:induction false} CpuSumSame(pids: seq<int>, t: Store, bs: seq<Block>, length: int, now: int)
    requires SameToQueries(t, bs, length, now)
    ensures PerProcessCpu(pids, t.processInfo, t.sysInfo, length, now) ==
            PerProcessCpu(pids, RowsIn(bs), SysIn(bs), length, now)
  {
    var a, b := CpuFigure(t.processInfo, t.sysInfo, length, now), CpuFigure(RowsIn(bs), SysIn(bs), length, now);
    forall pid | pid in pids
      ensures a(pid) == b(pid)
    {
      SelectedRows(RowsIn(bs), pid, length, now);
      JoinSame(SelectPs(RowsIn(bs), pid, length, now), t.sysInfo, SysIn(bs));
    }
    FloatSumSame(pids, a, b);
  }

  lemma {:induction false} SharesBracketed(bs: seq<Block>, length: int, now: int)
    requires Distinct(bs) && TimesInOrder(bs, length, now)
    ensures Bracketed(WindowBlocks(bs, length, now), CpuShareIn(SysIn(bs)), CpuPower, MinusPower, Nothing)
  {
    var w := WindowBlocks(bs, length, now);
    WindowOfSys(bs, length, now);
    forall j | 0 <= j < |w|
      ensures BlockBracketed(w[j], CpuShareIn(SysIn(bs)), CpuPower, MinusPower, Nothing)
    {
      assert w[j] in bs;
      var i :| 0 <= i < |bs| && bs[i] == w[j];
      WindowShares(bs, i, length, now);
    }
  }

  /** The figures of all processes are within those of the device: neither negative nor more. */
  ghost predicate WithinDevice(sum: Float, device: real) {
    sum.Fin? && 0.0 <= sum.v <= device
  }

  /** Processor energy over the rounds of a window, given that the times of each round are in order. */
  lemma {:induction false} CpuOfWindow(pids: seq<int>, t: Store, bs: seq<Block>, length: int, now: int)
    requires Distinct(bs) && TimesInOrder(bs, length, now)
    requires AllProcesses(pids, bs) && SameToQueries(t, bs, length, now)
    ensures WithinDevice(PerProcessCpu(pids, t.processInfo, t.sysInfo, length, now),
                         SystemTotal(SelectSys(t.sysInfo, length, now)).ecpu)
  {
    CpuSumSame(pids, t, bs, length, now);
    CpuSumIsPerProcess(pids, bs, length, now);
    PerProcessSame(pids, t.processInfo, RowsIn(bs), CpuShareIn(SysIn(bs)), length, now);
    SharesBracketed(bs, length, now);
    QueriesBracketed(pids, t, bs, CpuShareIn(SysIn(bs)), CpuPower, MinusPower, Nothing, length, now);
    NothingAddsUp(WindowBlocks(bs, length, now));
    PowerAddsUp(WindowBlocks(bs, length, now));
    WindowOfSys(bs, length, now);
  }

  lemma {:induction false} PowerAddsUp(bs: seq<Block>)
    ensures OverBlocks(bs, MinusPower) == -DeviceTotal(SysIn(bs), CpuPower)
  {
    if bs != [] {
      var init, b := bs[..|bs| - 1], bs[|bs| - 1];
      PowerAddsUp(init);
      assert bs == init + [b];
      BlocksTotalSnoc(init, b, DiskRow);
      assert (SysIn(init) + [b.sys])[..|SysIn(init)|] == SysIn(init);
    }
  }

  /** The tick counts behind the percentages of the rows. */
  function RowTicks(keys: seq<int>, m: Entries, f: Frame): seq<nat> {
    if keys == [] then []
    else
      var s := Lookup(m, keys[0]).slots;
      var cur, prev := UndoDips(s.Get(f.curr), s.Get(!f.curr)), s.Get(!f.curr);
      (if Active(s, f.curr) then [CpuTicks(cur, prev)] else []) + RowTicks(keys[1..], m, f)
  }

  lemma {:induction false} RowTicksAreOfRows(keys: seq<int>, m: Entries, f: Frame)
    ensures |RowTicks(keys, m, f)| == |RowsOf(keys, m, f)|
    ensures forall i :: 0 <= i < |RowTicks(keys, m, f)| ==>
              RowsOf(keys, m, f)[i].cpu == Percent(RowTicks(keys, m, f)[i], f.itv)
  {
    if keys != [] {
      RowTicksAreOfRows(keys[1..], m, f);
      var s := Lookup(m, keys[0]).slots;
      var ticks, rows := RowTicks(keys[1..], m, f), RowsOf(keys[1..], m, f);
      if Active(s, f.curr) {
        var x := CpuTicks(UndoDips(s.Get(f.curr), s.Get(!f.curr)), s.Get(!f.curr));
        assert RowTicks(keys, m, f) == [x] + ticks && RowsOf(keys, m, f) == [RowOf(s, f)] + rows;
        assert RowOf(s, f).cpu == Percent(x, f.itv);
      } else {
        assert RowTicks(keys, m, f) == ticks && RowsOf(keys, m, f) == rows;
      }
    }
  }

  function RoundTicks(s: State, r: Input): seq<nat> {
    RowTicks(PreOrder(Scanned(s, r).tree), Scanned(s, r).entries, FrameOf(s, r))
  }

  const ZERO_LINE := CpuLine(0, 0, 0, 0, 0, 0, 0, 0, 0)

  /** The line read in the round before; zeros before the first, like the cleared samples. */
  function LineBefore(rs: seq<Input>, i: nat): CpuLine
    requires i <= |rs|
  {
    if i == 0 then ZERO_LINE else rs[i - 1].cpuLine
  }

  /** A sum has not gone down and has passed no multiple of 2^32. */
  predicate SamePage(was: int, now: int) {
    was <= now && was / TWO32 == now / TWO32
  }

  /** Both sums of the line are on the pages they were on. */
  predicate LineInOrder(was: CpuLine, line: CpuLine) {
    SamePage(was.Total(), line.Total()) && SamePage(was.Busy(), line.Busy())
  }

  /** The sample holds both sums of this line, as they are stored. */
  predicate LineIn(last: SysInfo, line: CpuLine) {
    last.itv == Wrap32(line.Total()) && last.runtime == Wrap32(line.Busy())
  }

  predicate LastIs(s: State, line: CpuLine) {
    LineIn(s.last, line)
  }

  lemma {:induction false} StepLast(s: State, r: Input)
    requires |s.board| == BOARD_SIZE
    ensures LastIs(Step(s, r), r.cpuLine)
  {
  }

  lemma {:induction false} LastOfRun(board: seq<ProcessInfo>, rs: seq<Input>, i: nat)
    requires |board| == BOARD_SIZE && i <= |rs|
    ensures LastIs(Before(board, rs, i), LineBefore(rs, i))
  {
    if i > 0 {
      assert rs[..i][..i - 1] == rs[..i - 1];
      StepLast(Before(board, rs, i - 1), rs[i - 1]);
    }
  }

  /**
   The sums are kept in 32 bits. For one that has not gone down the stored difference is the
   true one exactly if it has passed no multiple of 2^32 in between.
   */
  lemma {:induction false} StoredDifferenceExactIff(was: int, now: int)
    requires was <= now
    ensures Wrap32(Subcount64(Wrap32(now), Wrap32(was))) == now - was <==> SamePage(was, now)
    ensures SamePage(was, now) ==> Subcount64(Wrap32(now), Wrap32(was)) == now - was
  {
    var a, b, q := Wrap32(now), Wrap32(was), now / TWO32 - was / TWO32;
    assert now - was == q * TWO32 + a - b;
    MultipleGrows(q, TWO32);
    if a < b {
      FallenDifference(a, b);
    }
  }

  lemma {:induction false} FallenDifference(a: u32, b: u32)
    requires a < b
    ensures Wrap32(Subcount64(a, b)) == Wrap32(MAXU32VAL - b + a)
    ensures Wrap32(Subcount64(a, b)) != TWO32 - b + a
  {
    assert MAXU64VAL == 0x11111111 * TWO32 + MAXU32VAL;
    AddMultiple(MAXU32VAL - b + a, 0x11111111, TWO32);
    var d := MAXU32VAL - b + a;
    assert Wrap32(d) == if d >= 0 then d else d + TWO32;
  }

  /** `itv` and the row `sys` are what a round makes of this line after the sample `last`. */
  predicate TimesStored(itv: u64, sys: SysInfo, last: SysInfo, line: CpuLine) {
    && itv == Subcount64(Wrap32(line.Busy()), last.runtime)
    && sys.runtime == Wrap32(itv)
    && sys.itv == Wrap32(Subcount64(Wrap32(line.Total()), last.itv))
  }

  /** They are the true differences between the two lines. */
  predicate TimesTrue(itv: u64, sys: SysInfo, was: CpuLine, line: CpuLine) {
    && itv == sys.runtime == line.Busy() - was.Busy()
    && sys.itv == line.Total() - was.Total()
  }

  /** For sums that have not gone down the stored times are true exactly if no page was left. */
  lemma {:induction false} StoredTimesAreTrueIff(itv: u64, sys: SysInfo, last: SysInfo, was: CpuLine, line: CpuLine)
    requires LineIn(last, was) && was.Busy() <= line.Busy() && was.Total() <= line.Total()
    requires TimesStored(itv, sys, last, line)
    ensures TimesTrue(itv, sys, was, line) <==> LineInOrder(was, line)
  {
    StoredDifferenceExactIff(was.Busy(), line.Busy());
    StoredDifferenceExactIff(was.Total(), line.Total());
  }

  lemma {:induction false} RoundStoresTimes(s: State, r: Input)
    requires |s.board| == BOARD_SIZE
    ensures TimesStored(FrameOf(s, r).itv, SystemRow(s, r), s.last, r.cpuLine)
    ensures SystemRow(s, r).cpupower == r.cpupower
  {
  }

  /** The rows of a round show its ticks, as percentages of the interval of its frame. */
  lemma {:induction false} RoundShowsTicks(s: State, r: Input)
    requires |s.board| == BOARD_SIZE
    ensures PercentagesOf(BlockOf(s, r), RoundTicks(s, r), FrameOf(s, r).itv)
  {
    RowTicksAreOfRows(PreOrder(Scanned(s, r).tree), Scanned(s, r).entries, FrameOf(s, r));
  }

  /** The times of a round fit: a matter of the figures in its system row and its ticks. */
  ghost predicate RoundFits(s: State, r: Input)
    requires |s.board| == BOARD_SIZE
  {
    TimesFit(BlockOf(s, r), RoundTicks(s, r), FrameOf(s, r).itv)
  }

  /**
   In any round of any run with a good clock, whatever its counters, the figures of the
   processes are finite and together at most the device's exactly if the times fit.
   */
  lemma {:induction false} CpuRoundIff(board: seq<ProcessInfo>, rs: seq<Input>, i: nat)
    requires |board| == BOARD_SIZE && Clocked(rs) && i < |rs| && rs[i].cpupower >= 0.0
    ensures CpuWithin(BlockAt(Initial(board), rs, i), SysIn(Blocks(Initial(board), rs)))
            <==> RoundFits(Before(board, rs, i), rs[i])
  {
    var bs := Blocks(Initial(board), rs);
    var s, r := Before(board, rs, i), rs[i];
    LogOfRun(board, rs);
    AtTimeOfBlocks(bs, bs[i].sys.time);
    RoundShowsTicks(s, r);
    RoundStoresTimes(s, r);
    CpuBlockIff(bs[i], RoundTicks(s, r), FrameOf(s, r).itv, SysIn(bs));
  }

  /** When the stored times are true, they fit exactly if the processes ran for no longer than all time. */
  lemma {:induction false} FitsIffTicks(b: Block, ts: seq<nat>, itv: u64, was: CpuLine, line: CpuLine)
    requires TimesTrue(itv, b.sys, was, line) && was.Busy() < line.Busy() && was.Total() < line.Total()
    requires b.rows != [] && b.sys.cpupower > 0.0
    ensures TimesFit(b, ts, itv) <==> Ticks(ts) <= line.Total() - was.Total()
  {
    CancelFactor(Ticks(ts), b.sys.itv, b.sys.runtime);
  }

  /**
   So with counters in order the condition is that the active processes ran, niced or not,
   for no longer than all processors together had time.
   */
  lemma {:induction false} RoundFitsIffTicks(s: State, was: CpuLine, r: Input)
    requires |s.board| == BOARD_SIZE && LastIs(s, was) && LineInOrder(was, r.cpuLine)
    requires was.Busy() < r.cpuLine.Busy() && was.Total() < r.cpuLine.Total()
    requires RoundRows(s, r) != [] && r.cpupower > 0.0
    ensures RoundFits(s, r) <==> Ticks(RoundTicks(s, r)) <= r.cpuLine.Total() - was.Total()
  {
    var b, itv := BlockOf(s, r), FrameOf(s, r).itv;
    RoundStoresTimes(s, r);
    StoredTimesAreTrueIff(itv, b.sys, s.last, was, r.cpuLine);
    FitsIffTicks(b, RoundTicks(s, r), itv, was, r.cpuLine);
  }

  /** The line a round starts from is the one its run has kept. */
  lemma {:induction false} RunFitsIffTicks(board: seq<ProcessInfo>, rs: seq<Input>, i: nat)
    requires |board| == BOARD_SIZE && i < |rs| && LineInOrder(LineBefore(rs, i), rs[i].cpuLine)
    requires LineBefore(rs, i).Busy() < rs[i].cpuLine.Busy() && LineBefore(rs, i).Total() < rs[i].cpuLine.Total()
    requires RoundRows(Before(board, rs, i), rs[i]) != [] && rs[i].cpupower > 0.0
    ensures RoundFits(Before(board, rs, i), rs[i]) <==>
            Ticks(RoundTicks(Before(board, rs, i), rs[i])) <= rs[i].cpuLine.Total() - LineBefore(rs, i).Total()
  {
    LastOfRun(board, rs, i);
    RoundFitsIffTicks(Before(board, rs, i), LineBefore(rs, i), rs[i]);
  }

  ghost predicate FitsInWindow(board: seq<ProcessInfo>, rs: seq<Input>, length: int, now: int)
    requires |board| == BOARD_SIZE
  {
    forall i :: 0 <= i < |rs| && InWindow(rs[i].ctime, length, now) ==>
                  RoundFits(Before(board, rs, i), rs[i]) && rs[i].cpupower >= 0.0
  }

  /**
   Processor energy, for every run with a good clock and every window in which the times of
   each round fit: the processes together do not exceed the device.
   */
  lemma {:induction false} CpuEnergyConserved(board: seq<ProcessInfo>, rs: seq<Input>, pids: seq<int>,
                                              early: bool, length: int, now: int)
    requires |board| == BOARD_SIZE && Clocked(rs) && Asked(rs, early, length, now)
    requires FitsInWindow(board, rs, length, now)
    requires AllProcesses(pids, Blocks(Initial(board), rs))
    ensures var t := TablesAt(board, rs, early);
            WithinDevice(PerProcessCpu(pids, t.processInfo, t.sysInfo, length, now),
                         SystemTotal(SelectSys(t.sysInfo, length, now)).ecpu)
  {
    var bs := Blocks(Initial(board), rs);
    LogOfRun(board, rs);
    QueriesSeeWholeLog(board, rs, early, length, now);
    forall i | 0 <= i < |bs| && InWindow(bs[i].sys.time, length, now)
      ensures HasTimesInOrder(bs[i])
    {
      RoundHasTimesInOrder(Before(board, rs, i), rs[i]);
    }
    CpuOfWindow(pids, TablesAt(board, rs, early), bs, length, now);
  }

  lemma {:induction false} RoundHasTimesInOrder(s: State, r: Input)
    requires |s.board| == BOARD_SIZE && RoundFits(s, r) && r.cpupower >= 0.0
    ensures HasTimesInOrder(BlockOf(s, r))
  {
    RoundShowsTicks(s, r);
    RoundStoresTimes(s, r);
    assert TimeInOrder(BlockOf(s, r), RoundTicks(s, r), FrameOf(s, r).itv);
  }

  // -------------------------------------------------- the columns of sys_info

  /** The columns of the system row that are differences of a raw reading. */
  datatype Column = CacheMisses | BytesSent | BytesReceived

  function SysColumn(c: Column, s: SysInfo): u64 {
    match c
    case CacheMisses => s.memaccess
    case BytesSent => s.totalnetsnd
    case BytesReceived => s.totalnetrcv
  }

  function Raw(c: Column, r: Input): u64 {
    match c
    case CacheMisses => r.memaccess
    case BytesSent => r.netsnd
    case BytesReceived => r.netrcv
  }

  /** What is read, after the zero of the cleared sample. */
  function Readings(c: Column, rs: seq<Input>): seq<u64> {
    [0] + seq(|rs|, i requires 0 <= i < |rs| => Raw(c, rs[i]))
  }

  function ColumnSum(c: Column, bs: seq<Block>): nat {
    if bs == [] then 0 else ColumnSum(c, bs[..|bs| - 1]) + SysColumn(c, bs[|bs| - 1].sys)
  }

  ghost predicate ColumnOfDifferences(c: Column, bs: seq<Block>, rs: seq<Input>) {
    |bs| == |rs| && forall i :: 0 <= i < |bs| ==>
                      SysColumn(c, bs[i].sys) == Subcount64(Readings(c, rs)[i + 1], Readings(c, rs)[i])
  }

  lemma {:induction false} ColumnTelescopes(c: Column, bs: seq<Block>, rs: seq<Input>)
    requires ColumnOfDifferences(c, bs, rs)
    ensures ColumnSum(c, bs) == Deltas64(Readings(c, rs))
  {
    if bs != [] {
      var n := |bs| - 1;
      var all := Readings(c, rs);
      assert all[..n + 1] == Readings(c, rs[..n]);
      ColumnTelescopes(c, bs[..n], rs[..n]);
      assert SysColumn(c, bs[n].sys) == Subcount64(all[n + 1], all[n]);
    }
  }

  lemma {:induction false} StepKeepsReading(c: Column, s: State, r: Input)
    requires |s.board| == BOARD_SIZE
    ensures SysColumn(c, Step(s, r).last) == Raw(c, r)
  {
  }

  lemma {:induction false} ColumnAt(c: Column, board: seq<ProcessInfo>, rs: seq<Input>, i: nat)
    requires |board| == BOARD_SIZE && i < |rs|
    ensures SysColumn(c, BlockAt(Initial(board), rs, i).sys) == Subcount64(Readings(c, rs)[i + 1], Readings(c, rs)[i])
  {
    if i > 0 {
      RunNext(Initial(board), rs, i - 1);
      StepKeepsReading(c, Before(board, rs, i - 1), rs[i - 1]);
    }
  }

  lemma {:induction false} ColumnsAreDifferences(c: Column, board: seq<ProcessInfo>, rs: seq<Input>)
    requires |board| == BOARD_SIZE
    ensures ColumnOfDifferences(c, Blocks(Initial(board), rs), rs)
  {
    var bs := Blocks(Initial(board), rs);
    forall i | 0 <= i < |bs|
      ensures SysColumn(c, bs[i].sys) == Subcount64(Readings(c, rs)[i + 1], Readings(c, rs)[i])
    {
      ColumnAt(c, board, rs, i);
    }
  }

  /**
   A sum that is, modulo 2^64, the last reading plus one wrap constant for every time a
   reading fell, and the last reading exactly when none fell.
   */
  ghost predicate AddsUp(sum: nat, read: seq<u64>)
    requires read != []
  {
    && sum % TWO64 == (Last(read) - read[0] + Falls(read, 0) * MAXU64VAL) % TWO64
    && (Falls(read, 0) == 0 ==> sum == Last(read) - read[0])
  }

  lemma {:induction false} ColumnAddsUp(c: Column, bs: seq<Block>, rs: seq<Input>)
    requires ColumnOfDifferences(c, bs, rs)
    ensures AddsUp(ColumnSum(c, bs), Readings(c, rs))
  {
    ColumnTelescopes(c, bs, rs);
    Subcount64Telescopes(Readings(c, rs));
  }

  /** Over any run the cache-miss and network columns of the system rows add up. */
  lemma {:induction false} SystemColumnsTelescope(c: Column, board: seq<ProcessInfo>, rs: seq<Input>)
    requires |board| == BOARD_SIZE
    ensures Readings(c, rs)[0] == 0 && AddsUp(ColumnSum(c, Blocks(Initial(board), rs)), Readings(c, rs))
  {
    ColumnsAreDifferences(c, board, rs);
    ColumnAddsUp(c, Blocks(Initial(board), rs), rs);
  }
}
