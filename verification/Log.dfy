/**
 The tables over a run: what the rounds wrote, what the purges leave of it, and why no
 energy query can tell the difference.
 */
module Log {
  import opened Arithmetic
  import opened Tables
  import opened Ranking
  import opened Rounds
  import opened Outputs

  /** What one round writes into the tables. */
  datatype Block = Block(rows: seq<ProcessInfo>, sys: SysInfo)

  function BlockOf(s: State, r: Input): Block
    requires |s.board| == BOARD_SIZE
  {
    Block(RoundRows(s, r), SystemRow(s, r))
  }

  /** The system row of a round. */
  function SystemRow(s: State, r: Input): SysInfo
    requires |s.board| == BOARD_SIZE
  {
    var p := WritePass(Scanned(s, r), r);
    SysRow(SampleWithDisk(r, p), s.last, r.ctime, p.shown as int - 1)
  }

  /** What round `i` of a run writes. */
  function BlockAt(s: State, rs: seq<Input>, i: nat): Block
    requires |s.board| == BOARD_SIZE && i < |rs|
  {
    BlockOf(Run(s, rs[..i]), rs[i])
  }

  function Blocks(s: State, rs: seq<Input>): seq<Block>
    requires |s.board| == BOARD_SIZE
  {
    seq(|rs|, i requires 0 <= i < |rs| => BlockAt(s, rs, i))
  }

  lemma {:induction false} BlockAtPrefix(s: State, rs: seq<Input>, n: nat, i: nat)
    requires |s.board| == BOARD_SIZE && i < n <= |rs|
    ensures BlockAt(s, rs[..n], i) == BlockAt(s, rs, i)
  {
    assert rs[..n][..i] == rs[..i];
  }

  lemma {:induction false} BlocksSnoc(s: State, rs: seq<Input>, n: nat)
    requires |s.board| == BOARD_SIZE && |rs| == n + 1
    ensures Blocks(s, rs) == Blocks(s, rs[..n]) + [BlockAt(s, rs, n)]
  {
    var all, init := Blocks(s, rs), Blocks(s, rs[..n]);
    forall i | 0 <= i < n
      ensures all[i] == init[i]
    {
      BlockAtPrefix(s, rs, n, i);
    }
    assert all[..n] == init && all[n] == BlockAt(s, rs, n);
  }

  function RowsIn(bs: seq<Block>): seq<ProcessInfo> {
    if bs == [] then [] else RowsIn(bs[..|bs| - 1]) + bs[|bs| - 1].rows
  }

  function SysIn(bs: seq<Block>): seq<SysInfo> {
    if bs == [] then [] else SysIn(bs[..|bs| - 1]) + [bs[|bs| - 1].sys]
  }

  /** The clock never goes back, and rounds are at least a second apart. */
  ghost predicate Clocked(rs: seq<Input>) {
    && (forall i :: 0 <= i < |rs| ==> rs[i].ctime <= rs[i].nowPs <= rs[i].nowSys)
    && (forall i, j :: 0 <= i < j < |rs| ==> rs[i].nowSys <= rs[j].ctime && rs[i].ctime < rs[j].ctime)
  }

  // ---------------------------------------------------------------- deletions

  lemma {:induction false} KeepPsTwice(a: seq<ProcessInfo>, c: int, d: int)
    ensures KeepPs(KeepPs(a, c), d) == KeepPs(a, Max(c, d))
  {
    if a != [] {
      KeepPsTwice(a[1..], c, d);
      var x, rest := a[0], KeepPs(a[1..], c);
      if x.time >= c {
        assert KeepPs(a, c) == [x] + rest && ([x] + rest)[1..] == rest;
      } else {
        assert KeepPs(a, c) == rest;
      }
    }
  }

  lemma {:induction false} KeepSysTwice(a: seq<SysInfo>, c: int, d: int)
    ensures KeepSys(KeepSys(a, c), d) == KeepSys(a, Max(c, d))
  {
    if a != [] {
      KeepSysTwice(a[1..], c, d);
      var x, rest := a[0], KeepSys(a[1..], c);
      if x.time >= c {
        assert KeepSys(a, c) == [x] + rest && ([x] + rest)[1..] == rest;
      } else {
        assert KeepSys(a, c) == rest;
      }
    }
  }

  lemma {:induction false} KeepPsAll(a: seq<ProcessInfo>, cutoff: int)
    requires forall i :: 0 <= i < |a| ==> a[i].time >= cutoff
    ensures KeepPs(a, cutoff) == a
  {
    if a != [] {
      KeepPsAll(a[1..], cutoff);
      assert a == [a[0]] + a[1..];
    }
  }

  // ------------------------------------------------------- tables of a run

  /** The latest cutoff of the deletions from `process_info`; `low` if there was none. */
  function CutPs(low: int, rs: seq<Input>): int {
    if rs == [] then low
    else NextCut(CutPs(low, rs[..|rs| - 1]), |rs|, rs[|rs| - 1].nowPs)
  }

  function CutSys(low: int, rs: seq<Input>): int {
    if rs == [] then low
    else NextCut(CutSys(low, rs[..|rs| - 1]), |rs|, rs[|rs| - 1].nowSys)
  }

  lemma {:induction false} ClockedPrefix(rs: seq<Input>, n: nat)
    requires Clocked(rs) && n <= |rs|
    ensures Clocked(rs[..n])
  {
  }

  /** Cutoffs lie 31 seconds behind every later time. */
  lemma {:induction false} CutsInThePast(low: int, rs: seq<Input>, now: int)
    requires Clocked(rs) && low <= now - CLEAN_INTERVAL
    requires forall i :: 0 <= i < |rs| ==> rs[i].nowSys <= now
    ensures CutPs(low, rs) <= now - CLEAN_INTERVAL && CutSys(low, rs) <= now - CLEAN_INTERVAL
  {
    if rs != [] {
      ClockedPrefix(rs, |rs| - 1);
      CutsInThePast(low, rs[..|rs| - 1], now);
    }
  }

  /** What a round does to the tables, given what it writes. */
  datatype Store = Store(processInfo: seq<ProcessInfo>, sysInfo: seq<SysInfo>, cycle: nat)

  function StoreStep(t: Store, b: Block, r: Input): Store {
    var ps, sys := t.processInfo + b.rows, t.sysInfo + [b.sys];
    if Purges(t.cycle)
    then Store(KeepPs(ps, r.nowPs - CLEAN_INTERVAL), KeepSys(sys, r.nowSys - CLEAN_INTERVAL), t.cycle + 1)
    else Store(ps, sys, t.cycle + 1)
  }

  function StoreRun(t: Store, bs: seq<Block>, rs: seq<Input>): Store
    requires |bs| == |rs|
  {
    if rs == [] then t
    else
      var n := |rs| - 1;
      StoreStep(StoreRun(t, bs[..n], rs[..n]), bs[n], rs[n])
  }

  function StoreOf(s: State): Store {
    Store(s.processInfo, s.sysInfo, s.cycle)
  }

  /** All rows of a block carry the time of its round. */
  predicate StampedBlock(b: Block, time: int) {
    b.sys.time == time && forall i :: 0 <= i < |b.rows| ==> b.rows[i].time == time
  }

  ghost predicate Stamped(bs: seq<Block>, rs: seq<Input>) {
    |bs| == |rs| && forall i :: 0 <= i < |rs| ==> StampedBlock(bs[i], rs[i].ctime)
  }

  lemma {:induction false} StoreOfStep(s: State, r: Input)
    requires Sound(s)
    ensures StoreOf(Step(s, r)) == StoreStep(StoreOf(s), BlockOf(s, r), r)
    ensures StampedBlock(BlockOf(s, r), r.ctime)
  {
    OneRowPerActiveProcess(s, r);
  }

  lemma {:induction false} BlocksStamped(s: State, rs: seq<Input>)
    requires Sound(s)
    ensures Stamped(Blocks(s, rs), rs)
  {
    forall i | 0 <= i < |rs|
      ensures StampedBlock(BlockAt(s, rs, i), rs[i].ctime)
    {
      RunSound(s, rs[..i]);
      StoreOfStep(Run(s, rs[..i]), rs[i]);
    }
  }

  /** The tables of a run are those that its blocks lead to. */
  lemma {:induction false} StoreOfRun(s: State, rs: seq<Input>)
    requires Sound(s)
    ensures StoreOf(Run(s, rs)) == StoreRun(StoreOf(s), Blocks(s, rs), rs)
  {
    if rs != [] {
      var n := |rs| - 1;
      StoreOfRun(s, rs[..n]);
      RunSound(s, rs[..n]);
      StoreOfStep(Run(s, rs[..n]), rs[n]);
      BlocksSnoc(s, rs, n);
      StoreRunSnoc(StoreOf(s), Blocks(s, rs[..n]), BlockAt(s, rs, n), rs, n);
    }
  }

  lemma {:induction false} StoreRunSnoc(t: Store, bs: seq<Block>, b: Block, rs: seq<Input>, n: nat)
    requires |rs| == n + 1 && |bs| == n
    ensures StoreRun(t, bs + [b], rs) == StoreStep(StoreRun(t, bs, rs[..n]), b, rs[n])
  {
    assert (bs + [b])[..n] == bs;
  }

  /** The tables are the rows of `bs` that were not before the cutoffs. */
  ghost predicate KeptLog(t: Store, bs: seq<Block>, cutPs: int, cutSys: int) {
    t.processInfo == KeepPs(RowsIn(bs), cutPs) && t.sysInfo == KeepSys(SysIn(bs), cutSys)
  }

  /** `cut'` is the latest cutoff once a round has purged, or not, up to `now`. */
  function NextCut(cut: int, cycle: nat, now: int): int {
    if Purges(cycle) then Max(cut, now - CLEAN_INTERVAL) else cut
  }

  lemma {:induction false} PurgedPs(rows: seq<ProcessInfo>, cut: int, cycle: nat, now: int)
    ensures (if Purges(cycle) then KeepPs(KeepPs(rows, cut), now - CLEAN_INTERVAL) else KeepPs(rows, cut))
            == KeepPs(rows, NextCut(cut, cycle, now))
  {
    KeepPsTwice(rows, cut, now - CLEAN_INTERVAL);
  }

  lemma {:induction false} PurgedSys(rows: seq<SysInfo>, cut: int, cycle: nat, now: int)
    ensures (if Purges(cycle) then KeepSys(KeepSys(rows, cut), now - CLEAN_INTERVAL) else KeepSys(rows, cut))
            == KeepSys(rows, NextCut(cut, cycle, now))
  {
    KeepSysTwice(rows, cut, now - CLEAN_INTERVAL);
  }

  lemma {:induction false} KeptLogStep(t: Store, bs: seq<Block>, b: Block, r: Input, cutPs: int, cutSys: int)
    requires KeptLog(t, bs, cutPs, cutSys) && StampedBlock(b, r.ctime)
    requires cutPs <= r.ctime && cutSys <= r.ctime
    ensures KeptLog(StoreStep(t, b, r), bs + [b], NextCut(cutPs, t.cycle, r.nowPs), NextCut(cutSys, t.cycle, r.nowSys))
  {
    BlockAppended(bs, b, cutPs, cutSys);
    PurgedPs(RowsIn(bs + [b]), cutPs, t.cycle, r.nowPs);
    PurgedSys(SysIn(bs + [b]), cutSys, t.cycle, r.nowSys);
  }

  const EMPTY_STORE := Store([], [], 1)

  lemma {:induction false} StoreCycle(bs: seq<Block>, rs: seq<Input>)
    requires |bs| == |rs|
    ensures StoreRun(EMPTY_STORE, bs, rs).cycle == |rs| + 1
  {
    if rs != [] {
      StoreCycle(bs[..|rs| - 1], rs[..|rs| - 1]);
    }
  }

  /** With a good clock the tables are the log, less what lies before the latest cutoff. */
  lemma {:induction false} TablesAreKeptLog(bs: seq<Block>, rs: seq<Input>, low: int)
    requires Clocked(rs) && Stamped(bs, rs)
    requires forall i :: 0 <= i < |rs| ==> low <= rs[i].ctime - CLEAN_INTERVAL
    ensures KeptLog(StoreRun(EMPTY_STORE, bs, rs), bs, CutPs(low, rs), CutSys(low, rs))
  {
    if rs != [] {
      var n := |rs| - 1;
      ClockedPrefix(rs, n);
      TablesAreKeptLog(bs[..n], rs[..n], low);
      CutsInThePast(low, rs[..n], rs[n].ctime);
      StoreCycle(bs[..n], rs[..n]);
      var t := StoreRun(EMPTY_STORE, bs[..n], rs[..n]);
      KeptLogStep(t, bs[..n], bs[n], rs[n], CutPs(low, rs[..n]), CutSys(low, rs[..n]));
      assert bs == bs[..n] + [bs[n]];
    }
  }

  lemma {:induction false} BlockAppended(bs: seq<Block>, b: Block, cutPs: int, cutSys: int)
    requires forall i :: 0 <= i < |b.rows| ==> b.rows[i].time >= cutPs
    requires b.sys.time >= cutSys
    ensures KeepPs(RowsIn(bs + [b]), cutPs) == KeepPs(RowsIn(bs), cutPs) + b.rows
    ensures KeepSys(SysIn(bs + [b]), cutSys) == KeepSys(SysIn(bs), cutSys) + [b.sys]
  {
    assert (bs + [b])[..|bs|] == bs;
    KeepPsConcat(RowsIn(bs), b.rows, cutPs);
    KeepPsAll(b.rows, cutPs);
    KeepSysConcat(SysIn(bs), [b.sys], cutSys);
    assert KeepSys([b.sys], cutSys) == [b.sys];
  }

  /** Exactly the rows that are not older than the cutoff. */
  ghost predicate PsSince(out: seq<ProcessInfo>, rows: seq<ProcessInfo>, cutoff: int) {
    forall x :: multiset(out)[x] == if x.time < cutoff then 0 else multiset(rows)[x]
  }

  ghost predicate SysSince(out: seq<SysInfo>, rows: seq<SysInfo>, cutoff: int) {
    forall x :: multiset(out)[x] == if x.time < cutoff then 0 else multiset(rows)[x]
  }

  lemma {:induction false} KeptSince(ps: seq<ProcessInfo>, sys: seq<SysInfo>, cutPs: int, cutSys: int)
    ensures PsSince(KeepPs(ps, cutPs), ps, cutPs) && SysSince(KeepSys(sys, cutSys), sys, cutSys)
  {
    forall x: ProcessInfo
      ensures multiset(KeepPs(ps, cutPs))[x] == if x.time < cutPs then 0 else multiset(ps)[x]
    {
      KeepPsExactly(ps, cutPs, x);
    }
    forall x: SysInfo
      ensures multiset(KeepSys(sys, cutSys))[x] == if x.time < cutSys then 0 else multiset(sys)[x]
    {
      KeepSysExactly(sys, cutSys, x);
    }
  }

  /** What round number `cycle` makes of these rows: in every 31st only the last 31 seconds stay. */
  ghost predicate PurgedOrNot(ps: seq<ProcessInfo>, sys: seq<SysInfo>, r: Input, t: Store, cycle: nat) {
    if cycle % 31 == 0
    then PsSince(t.processInfo, ps, r.nowPs - 31) && SysSince(t.sysInfo, sys, r.nowSys - 31)
    else t.processInfo == ps && t.sysInfo == sys
  }

  lemma {:induction false} StepPurgesOrNot(t: Store, b: Block, r: Input)
    ensures PurgedOrNot(t.processInfo + b.rows, t.sysInfo + [b.sys], r, StoreStep(t, b, r), t.cycle)
  {
    var ps, sys, out := t.processInfo + b.rows, t.sysInfo + [b.sys], StoreStep(t, b, r);
    if t.cycle % 31 == 0 {
      assert out.processInfo == KeepPs(ps, r.nowPs - 31) && out.sysInfo == KeepSys(sys, r.nowSys - 31);
      KeptSince(ps, sys, r.nowPs - 31, r.nowSys - 31);
    }
  }

  /**
   The rounds 31, 62, 93 and so on purge, and no others do: after one of these no row is older
   than 31 seconds and every other row is there; after the others all rows are.
   */
  lemma {:induction false} PurgesEvery31st(board: seq<ProcessInfo>, rs: seq<Input>, r: Input)
    requires |board| == BOARD_SIZE
    ensures var s := Run(Initial(board), rs);
            var b := BlockOf(s, r);
            PurgedOrNot(s.processInfo + b.rows, s.sysInfo + [b.sys], r, StoreOf(Step(s, r)), |rs| + 1)
  {
    var s0 := Initial(board);
    var s := Run(s0, rs);
    InitialSound(board);
    RunSound(s0, rs);
    StoreOfRun(s0, rs);
    StoreCycle(Blocks(s0, rs), rs);
    StoreOfStep(s, r);
    StepPurgesOrNot(StoreOf(s), BlockOf(s, r), r);
  }

  // ------------------------------------------- queries do not see the purges

  lemma {:induction false} SelectPsKept(rows: seq<ProcessInfo>, cutoff: int, pid: int, length: int, now: int)
    requires cutoff <= now - length
    ensures SelectPs(KeepPs(rows, cutoff), pid, length, now) == SelectPs(rows, pid, length, now)
  {
    if rows != [] {
      SelectPsKept(rows[1..], cutoff, pid, length, now);
      if rows[0].time >= cutoff {
        assert ([rows[0]] + KeepPs(rows[1..], cutoff))[1..] == KeepPs(rows[1..], cutoff);
      } else {
        assert KeepPs(rows, cutoff) == KeepPs(rows[1..], cutoff);
        assert SelectPs(rows, pid, length, now) == SelectPs(rows[1..], pid, length, now);
      }
    }
  }

  lemma {:induction false} SelectSysKept(rows: seq<SysInfo>, cutoff: int, length: int, now: int)
    requires cutoff <= now - length
    ensures SelectSys(KeepSys(rows, cutoff), length, now) == SelectSys(rows, length, now)
  {
    if rows != [] {
      SelectSysKept(rows[1..], cutoff, length, now);
      if rows[0].time >= cutoff {
        assert ([rows[0]] + KeepSys(rows[1..], cutoff))[1..] == KeepSys(rows[1..], cutoff);
      } else {
        assert KeepSys(rows, cutoff) == KeepSys(rows[1..], cutoff);
        assert SelectSys(rows, length, now) == SelectSys(rows[1..], length, now);
      }
    }
  }

  lemma {:induction false} AtTimeKept(rows: seq<SysInfo>, cutoff: int, time: int)
    requires cutoff <= time
    ensures AtTime(KeepSys(rows, cutoff), time) == AtTime(rows, time)
  {
    if rows != [] {
      AtTimeKept(rows[1..], cutoff, time);
      if rows[0].time >= cutoff {
        assert ([rows[0]] + KeepSys(rows[1..], cutoff))[1..] == KeepSys(rows[1..], cutoff);
      } else {
        assert KeepSys(rows, cutoff) == KeepSys(rows[1..], cutoff);
        assert AtTime(rows, time) == AtTime(rows[1..], time);
      }
    }
  }

  /** Every row that an energy query of this window looks at. */
  ghost predicate SameToQueries(t: Store, bs: seq<Block>, length: int, now: int) {
    && (forall pid: int :: SelectPs(t.processInfo, pid, length, now) == SelectPs(RowsIn(bs), pid, length, now))
    && SelectSys(t.sysInfo, length, now) == SelectSys(SysIn(bs), length, now)
    && (forall time: int :: InWindow(time, length, now) ==> AtTime(t.sysInfo, time) == AtTime(SysIn(bs), time))
  }

  lemma {:induction false} KeptLogSameToQueries(t: Store, bs: seq<Block>, cutPs: int, cutSys: int,
                                                length: int, now: int)
    requires KeptLog(t, bs, cutPs, cutSys) && cutPs <= now - length && cutSys <= now - length
    ensures SameToQueries(t, bs, length, now)
  {
    forall pid: int
      ensures SelectPs(t.processInfo, pid, length, now) == SelectPs(RowsIn(bs), pid, length, now)
    {
      SelectPsKept(RowsIn(bs), cutPs, pid, length, now);
    }
    SelectSysKept(SysIn(bs), cutSys, length, now);
    forall time: int | InWindow(time, length, now)
      ensures AtTime(t.sysInfo, time) == AtTime(SysIn(bs), time)
    {
      AtTimeKept(SysIn(bs), cutSys, time);
    }
  }

  /** The tables after a run are its log from the cutoffs on, which lie in the past. */
  lemma {:induction false} RunIsKeptLog(board: seq<ProcessInfo>, rs: seq<Input>, now: int)
    returns (cutPs: int, cutSys: int)
    requires |board| == BOARD_SIZE && Clocked(rs) && forall i :: 0 <= i < |rs| ==> rs[i].nowSys <= now
    ensures KeptLog(StoreOf(Run(Initial(board), rs)), Blocks(Initial(board), rs), cutPs, cutSys)
    ensures cutPs <= now - CLEAN_INTERVAL && cutSys <= now - CLEAN_INTERVAL
  {
    var s0 := Initial(board);
    var low := if rs == [] then now - CLEAN_INTERVAL else rs[0].ctime - CLEAN_INTERVAL;
    cutPs, cutSys := CutPs(low, rs), CutSys(low, rs);
    InitialSound(board);
    StoreOfRun(s0, rs);
    BlocksStamped(s0, rs);
    TablesAreKeptLog(Blocks(s0, rs), rs, low);
    CutsInThePast(low, rs, now);
  }

  /** After a run, its purges included. */
  lemma {:induction false} PurgesAreInvisible(board: seq<ProcessInfo>, rs: seq<Input>, length: int, now: int)
    requires |board| == BOARD_SIZE && Clocked(rs)
    requires length <= CLEAN_INTERVAL && forall i :: 0 <= i < |rs| ==> rs[i].nowSys <= now
    ensures SameToQueries(StoreOf(Run(Initial(board), rs)), Blocks(Initial(board), rs), length, now)
  {
    var cutPs, cutSys := RunIsKeptLog(board, rs, now);
    KeptLogSameToQueries(StoreOf(Run(Initial(board), rs)), Blocks(Initial(board), rs), cutPs, cutSys, length, now);
  }

  /** The tables when the last round has written its rows and has not purged yet, as the display sees them. */
  function BeforePurge(board: seq<ProcessInfo>, rs: seq<Input>): Store
    requires |board| == BOARD_SIZE && rs != []
  {
    var s, r := Run(Initial(board), rs[..|rs| - 1]), rs[|rs| - 1];
    StoreOf(Written(Scanned(s, r), r))
  }

  lemma {:induction false} StoreBeforePurge(s: State, r: Input)
    requires Sound(s)
    ensures var t := StoreOf(Written(Scanned(s, r), r));
            && t.processInfo == s.processInfo + BlockOf(s, r).rows
            && t.sysInfo == s.sysInfo + [BlockOf(s, r).sys]
    ensures StampedBlock(BlockOf(s, r), r.ctime)
  {
    OneRowPerActiveProcess(s, r);
  }

  /** In the middle of the last round, before its own purge. */
  lemma {:induction false} EarlierPurgesAreInvisible(board: seq<ProcessInfo>, rs: seq<Input>, length: int, now: int)
    requires |board| == BOARD_SIZE && Clocked(rs) && rs != []
    requires length <= CLEAN_INTERVAL && rs[|rs| - 1].ctime <= now
    ensures SameToQueries(BeforePurge(board, rs), Blocks(Initial(board), rs), length, now)
  {
    var n := |rs| - 1;
    var s, r := Run(Initial(board), rs[..n]), rs[n];
    ClockedPrefix(rs, n);
    var cutPs, cutSys := RunIsKeptLog(board, rs[..n], r.ctime);
    InitialSound(board);
    RunSound(Initial(board), rs[..n]);
    StoreBeforePurge(s, r);
    BlockAppended(Blocks(Initial(board), rs[..n]), BlockOf(s, r), cutPs, cutSys);
    BlocksSnoc(Initial(board), rs, n);
    KeptLogSameToQueries(BeforePurge(board, rs), Blocks(Initial(board), rs), cutPs, cutSys, length, now);
  }

  /** A query at `now` for at most the time that purges spare, made after a run or before its last purge. */
  ghost predicate Asked(rs: seq<Input>, early: bool, length: int, now: int) {
    && length <= CLEAN_INTERVAL
    && if early then rs != [] && rs[|rs| - 1].ctime <= now else forall i :: 0 <= i < |rs| ==> rs[i].nowSys <= now
  }

  /** The tables it is made on. */
  function TablesAt(board: seq<ProcessInfo>, rs: seq<Input>, early: bool): Store
    requires |board| == BOARD_SIZE && (early ==> rs != [])
  {
    if early then BeforePurge(board, rs) else StoreOf(Run(Initial(board), rs))
  }

  /**
   No query of a window of at most 31 seconds can tell the tables of a run from its whole log:
   not after the run, and not when it is made, as the display does, between the writes of a
   round and its purge.
   */
  lemma {:induction false} QueriesSeeWholeLog(board: seq<ProcessInfo>, rs: seq<Input>, early: bool,
                                              length: int, now: int)
    requires |board| == BOARD_SIZE && Clocked(rs) && Asked(rs, early, length, now)
    ensures SameToQueries(TablesAt(board, rs, early), Blocks(Initial(board), rs), length, now)
  {
    if early {
      EarlierPurgesAreInvisible(board, rs, length, now);
    } else {
      PurgesAreInvisible(board, rs, length, now);
    }
  }

  // -------------------------------------------------- the size of sys_info

  ghost predicate Increasing(sys: seq<SysInfo>) {
    forall i, j :: 0 <= i < j < |sys| ==> sys[i].time < sys[j].time
  }

  ghost predicate Within(sys: seq<SysInfo>, low: int, high: int) {
    forall i :: 0 <= i < |sys| ==> low <= sys[i].time <= high
  }

  lemma {:induction false} IncreasingIsShort(sys: seq<SysInfo>, low: int, high: int)
    requires Increasing(sys) && Within(sys, low, high)
    ensures |sys| <= Max(high - low + 1, 0)
  {
    if sys != [] {
      var n := |sys| - 1;
      assert Within(sys[..n], low, sys[n].time - 1);
      IncreasingIsShort(sys[..n], low, sys[n].time - 1);
    }
  }

  lemma {:induction false} KeepSysIncreasing(sys: seq<SysInfo>, cutoff: int, high: int)
    requires Increasing(sys) && forall i :: 0 <= i < |sys| ==> sys[i].time <= high
    ensures Increasing(KeepSys(sys, cutoff)) && Within(KeepSys(sys, cutoff), cutoff, high)
    ensures forall x :: x in KeepSys(sys, cutoff) ==> x in sys
  {
    if sys != [] {
      KeepSysIncreasing(sys[1..], cutoff, high);
      var rest := KeepSys(sys[1..], cutoff);
      assert forall i :: 0 <= i < |rest| ==> rest[i] in sys[1..];
      assert forall x :: x in sys[1..] ==> x.time > sys[0].time;
      assert KeepSys(sys, cutoff) == (if sys[0].time < cutoff then [] else [sys[0]]) + rest;
    }
  }

  /** A bound on the table that depends on how long ago the last purge was. */
  ghost predicate Bounded(t: Store, last: int) {
    && t.cycle > 0
    && Increasing(t.sysInfo) && (forall i :: 0 <= i < |t.sysInfo| ==> t.sysInfo[i].time <= last)
    && |t.sysInfo| <= 32 + (t.cycle - 1) % CLEAN_INTERVAL
  }

  lemma {:induction false} CyclesSincePurge(cycle: nat)
    requires cycle > 0
    ensures if Purges(cycle) then cycle % CLEAN_INTERVAL == 0 && (cycle - 1) % CLEAN_INTERVAL == 30
            else cycle % CLEAN_INTERVAL == (cycle - 1) % CLEAN_INTERVAL + 1
  {
  }

  lemma {:induction false} BoundedStep(t: Store, b: Block, r: Input, last: int)
    requires Bounded(t, last) && StampedBlock(b, r.ctime)
    requires last < r.ctime <= r.nowSys
    ensures |t.sysInfo + [b.sys]| <= 63
    ensures Bounded(StoreStep(t, b, r), r.ctime)
  {
    var sys := t.sysInfo + [b.sys];
    CyclesSincePurge(t.cycle);
    assert Increasing(sys) && forall i :: 0 <= i < |sys| ==> sys[i].time <= r.ctime;
    if Purges(t.cycle) {
      PurgedIsShort(sys, r.nowSys, r.ctime);
    }
  }

  lemma {:induction false} PurgedIsShort(sys: seq<SysInfo>, now: int, last: int)
    requires Increasing(sys) && (forall i :: 0 <= i < |sys| ==> sys[i].time <= last) && last <= now
    ensures Increasing(KeepSys(sys, now - CLEAN_INTERVAL))
    ensures Within(KeepSys(sys, now - CLEAN_INTERVAL), now - CLEAN_INTERVAL, last)
    ensures |KeepSys(sys, now - CLEAN_INTERVAL)| <= 32
  {
    KeepSysIncreasing(sys, now - CLEAN_INTERVAL, last);
    IncreasingIsShort(KeepSys(sys, now - CLEAN_INTERVAL), now - CLEAN_INTERVAL, last);
  }

  lemma {:induction false} StoreBounded(bs: seq<Block>, rs: seq<Input>, last: int)
    requires Clocked(rs) && Stamped(bs, rs)
    requires forall i :: 0 <= i < |rs| ==> rs[i].ctime <= last
    ensures Bounded(StoreRun(EMPTY_STORE, bs, rs), last)
  {
    if rs != [] {
      var n := |rs| - 1;
      ClockedPrefix(rs, n);
      StoreBounded(bs[..n], rs[..n], rs[n].ctime - 1);
      BoundedStep(StoreRun(EMPTY_STORE, bs[..n], rs[..n]), bs[n], rs[n], rs[n].ctime - 1);
    }
  }

  /** With a good clock `sys_info` never holds more than 63 rounds, not even just before a purge. */
  lemma {:induction false} SysInfoNeverAbove63(board: seq<ProcessInfo>, rs: seq<Input>, r: Input)
    requires |board| == BOARD_SIZE && Clocked(rs + [r])
    ensures |Run(Initial(board), rs).sysInfo| <= 63
    ensures |Written(Scanned(Run(Initial(board), rs), r), r).sysInfo| <= 63
  {
    var s0 := Initial(board);
    var t := Run(s0, rs);
    assert (rs + [r])[..|rs|] == rs && (rs + [r])[|rs|] == r;
    ClockedPrefix(rs + [r], |rs|);
    InitialSound(board);
    StoreOfRun(s0, rs);
    BlocksStamped(s0, rs);
    RunSound(s0, rs);
    StoreOfStep(t, r);
    StoreBounded(Blocks(s0, rs), rs, r.ctime - 1);
    BoundedStep(StoreOf(t), BlockOf(t, r), r, r.ctime - 1);
  }
}
