/**
 Rounds in which a read counter fell. The row of the process then holds a wrapped difference of
 64 bits, the device total one of 32 bits, and the processes exceed the device by far.
 */
module Excess {
  import opened Arithmetic
  import opened Counters
  import opened Samples
  import opened Tables
  import opened Ranking
  import opened AvlShape
  import opened Rounds
  import opened Outputs
  import opened Histories
  import opened Log
  import opened Energy
  import opened Conservation
  import opened Accounting
  import opened Departures

  // ----------------------------------------------- what is true of any round

  /** The device totals count each process in 32 bits. */
  predicate Capped(b: Block) {
    b.sys.totaldiskread <= |b.rows| * TWO32 && b.sys.totaldiskwrite <= |b.rows| * TWO32
  }

  /** No row cancels more than it wrote. */
  predicate NetRows(rows: seq<ProcessInfo>) {
    forall i :: 0 <= i < |rows| ==> rows[i].cancelledWriteBytes <= rows[i].writeBytes
  }

  lemma {:induction false} SumsCapped(keys: seq<int>, m: Entries, f: Frame)
    ensures ReadSum(keys, m, f.curr) <= |RowsOf(keys, m, f)| * TWO32
    ensures WrittenSum(keys, m, f.curr) <= |RowsOf(keys, m, f)| * TWO32
    ensures NetRows(RowsOf(keys, m, f))
  {
    if keys != [] {
      SumsCapped(keys[1..], m, f);
      var s, rest := Lookup(m, keys[0]).slots, RowsOf(keys[1..], m, f);
      if Active(s, f.curr) {
        assert RowsOf(keys, m, f) == [RowOf(s, f)] + rest;
        assert RowOf(s, f).cancelledWriteBytes <= RowOf(s, f).writeBytes;
      } else {
        assert RowsOf(keys, m, f) == rest;
      }
    }
  }

  lemma {:induction false} PassCapped(p: Pass, keys: seq<int>, m: Entries, f: Frame)
    requires |p.board| == BOARD_SIZE && p.diskRead == p.diskWritten == 0 && |RowsOf(keys, m, f)| < TWO32
    ensures Walk(p, keys, m, f).diskRead <= |RowsOf(keys, m, f)| * TWO32
    ensures Walk(p, keys, m, f).diskWritten <= |RowsOf(keys, m, f)| * TWO32
  {
    var n := |RowsOf(keys, m, f)|;
    WalkTotals(p, keys, m, f, 0, 0);
    SumsCapped(keys, m, f);
    FitsIn64(n, ReadSum(keys, m, f.curr));
    FitsIn64(n, WrittenSum(keys, m, f.curr));
  }

  lemma {:induction false} RoundCapped(s: State, r: Input)
    requires |s.board| == BOARD_SIZE && |RoundRows(s, r)| < TWO32
    ensures Capped(BlockOf(s, r)) && NetRows(BlockOf(s, r).rows)
  {
    var s1 := Scanned(s, r);
    PassCapped(Pass(s.processInfo, 0, 0, s.board, 0), PreOrder(s1.tree), s1.entries, FrameOf(s, r));
    SumsCapped(PreOrder(s1.tree), s1.entries, FrameOf(s, r));
  }

  // ------------------------------------------------------- one row against all

  /** Falls of less than this are wrapped to something that outweighs every device total. */
  const FALL: int := 0x0800_0000_0000_0000

  /** As many rows as the device totals may have for that. */
  const MANY: int := 0x0400_0000

  /** The row of a read counter that fell. */
  predicate FallenRow(x: ProcessInfo) {
    x.readBytes > MAXU64VAL - FALL
  }

  ghost predicate HasFallen(b: Block) {
    exists i :: 0 <= i < |b.rows| && FallenRow(b.rows[i])
  }

  /** What the device totals of one process come to at most. */
  const DISK_CAP: real := 4194304.0 * (EDISKRPERKB + EDISKWPERKB)

  lemma {:induction false} TotalAtLeast(rows: seq<ProcessInfo>, e: ProcessInfo -> real)
    requires forall i :: 0 <= i < |rows| ==> e(rows[i]) >= 0.0
    ensures Total(rows, e) >= 0.0
    ensures forall i :: 0 <= i < |rows| ==> Total(rows, e) >= e(rows[i])
  {
    if rows != [] {
      var n := |rows| - 1;
      assert forall i :: 0 <= i < n ==> rows[..n][i] == rows[i];
      TotalAtLeast(rows[..n], e);
    }
  }

  lemma {:induction false} BlocksAtLeast(bs: seq<Block>, e: ProcessInfo -> real)
    requires forall i :: 0 <= i < |bs| ==> Total(bs[i].rows, e) >= 0.0
    ensures BlocksTotal(bs, e) >= 0.0
    ensures forall i :: 0 <= i < |bs| ==> BlocksTotal(bs, e) >= Total(bs[i].rows, e)
  {
    if bs != [] {
      var n := |bs| - 1;
      assert forall i :: 0 <= i < n ==> bs[..n][i] == bs[i];
      BlocksAtLeast(bs[..n], e);
    }
  }

  function RowCount(bs: seq<Block>): nat {
    if bs == [] then 0 else RowCount(bs[..|bs| - 1]) + |bs[|bs| - 1].rows|
  }

  lemma {:induction false} CountAtLeast(bs: seq<Block>, i: nat)
    requires i < |bs|
    ensures |bs[i].rows| <= RowCount(bs)
  {
    var n := |bs| - 1;
    if i < n {
      CountAtLeast(bs[..n], i);
    }
  }

  /** So much a row. */
  function Rowwise(n: nat, cap: real): real {
    n as real * cap
  }

  /** A device figure that is at most so much a row. */
  ghost predicate PerRow(bs: seq<Block>, dev: SysInfo -> real, cap: real) {
    forall i :: 0 <= i < |bs| ==> dev(bs[i].sys) <= Rowwise(|bs[i].rows|, cap)
  }

  lemma {:induction false} DevicesPerRow(bs: seq<Block>, dev: SysInfo -> real, cap: real)
    requires PerRow(bs, dev, cap)
    ensures DeviceTotal(SysIn(bs), dev) <= Rowwise(RowCount(bs), cap)
  {
    if bs != [] {
      var n := |bs| - 1;
      DevicesPerRow(bs[..n], dev, cap);
      assert (SysIn(bs[..n]) + [bs[n].sys])[..|SysIn(bs[..n])|] == SysIn(bs[..n]);
      AddRows(RowCount(bs[..n]), |bs[n].rows|, cap);
    }
  }

  lemma {:induction false} AddRows(a: nat, b: nat, cap: real)
    ensures Rowwise(a + b, cap) == Rowwise(a, cap) + Rowwise(b, cap)
  {
  }

  lemma {:induction false} MoreRows(a: nat, b: nat, cap: real)
    requires a <= b && cap >= 0.0
    ensures Rowwise(a, cap) <= Rowwise(b, cap)
  {
    assert (b as real - a as real) * cap >= 0.0;
  }

  lemma {:induction false} DevicesAtMost(bs: seq<Block>, dev: SysInfo -> real, cap: real)
    requires PerRow(bs, dev, cap) && RowCount(bs) <= MANY && cap >= 0.0
    ensures DeviceTotal(SysIn(bs), dev) <= Rowwise(MANY, cap)
  {
    DevicesPerRow(bs, dev, cap);
    MoreRows(RowCount(bs), MANY, cap);
  }

  ghost predicate NotNegative(bs: seq<Block>, e: ProcessInfo -> real) {
    forall k, l :: 0 <= k < |bs| && 0 <= l < |bs[k].rows| ==> e(bs[k].rows[l]) >= 0.0
  }

  lemma {:induction false} RoundsAtLeast(bs: seq<Block>, i: nat, j: nat, e: ProcessInfo -> real)
    requires i < |bs| && j < |bs[i].rows| && NotNegative(bs, e)
    ensures BlocksTotal(bs, e) >= e(bs[i].rows[j])
  {
    forall k | 0 <= k < |bs|
      ensures Total(bs[k].rows, e) >= 0.0
    {
      TotalAtLeast(bs[k].rows, e);
    }
    var rows := bs[i].rows;
    TotalAtLeast(rows, e);
    BlocksAtLeast(bs, e);
    assert BlocksTotal(bs, e) >= Total(rows, e) >= e(rows[j]);
  }

  /** Rounds with a row that outweighs the devices of them all, with something to spare. */
  lemma {:induction false} OneRowOutweighs(bs: seq<Block>, i: nat, j: nat, e: ProcessInfo -> real, dev: SysInfo -> real,
                                           cap: real, spare: real)
    requires i < |bs| && j < |bs[i].rows| && RowCount(bs) <= MANY && cap >= 0.0
    requires NotNegative(bs, e) && PerRow(bs, dev, cap) && e(bs[i].rows[j]) > Rowwise(MANY, cap) + spare
    ensures BlocksTotal(bs, e) > DeviceTotal(SysIn(bs), dev) + spare
  {
    RoundsAtLeast(bs, i, j, e);
    DevicesAtMost(bs, dev, cap);
  }

  // ------------------------------------------------------- disk and memory

  lemma {:induction false} DiskRowNotNegative(x: ProcessInfo)
    requires x.cancelledWriteBytes <= x.writeBytes
    ensures DiskRow(x) >= 0.0 && DmaRow(x) >= 0.0
  {
  }

  lemma {:induction false} FallenDiskRow(x: ProcessInfo)
    requires x.cancelledWriteBytes <= x.writeBytes && FallenRow(x)
    ensures DiskRow(x) > Rowwise(MANY, DISK_CAP)
  {
    assert x.readBytes / 1024 >= 638_009_947_210_820;
  }

  lemma {:induction false} DiskCapped(b: Block)
    requires Capped(b)
    ensures DeviceDisk(b.sys) <= Rowwise(|b.rows|, DISK_CAP)
  {
    var n := |b.rows|;
    assert b.sys.totaldiskread / 1024 <= n * 4194304 && b.sys.totaldiskwrite / 1024 <= n * 4194304;
  }

  /** What the device lines of one process cost at most. */
  const DMA_CAP: real := LineEnergy(67108864.0)

  lemma {:induction false} SlackSmall(rounds: nat)
    requires rounds <= CLEAN_INTERVAL
    ensures Slack(rounds) <= 1.0
  {
    var e := LineEnergy(ALMOST_TWO);
    assert 0.0 <= e <= 0.001;
    assert rounds as real * e <= rounds as real * 0.001 by {
      assert rounds as real * (0.001 - e) >= 0.0;
    }
  }

  lemma {:induction false} FallenDmaRow(x: ProcessInfo, rounds: nat)
    requires x.cancelledWriteBytes <= x.writeBytes && FallenRow(x) && rounds <= CLEAN_INTERVAL
    ensures DmaRow(x) > Rowwise(MANY, DMA_CAP) + Slack(rounds)
  {
    var lines := x.readBytes as real / 128.0;
    assert lines >= 5_104_079_577_686_562.0;
    assert DmaRow(x) >= LineEnergy(lines) >= 615_000_000.0;
    assert Rowwise(MANY, DMA_CAP) <= 543_000_000.0;
    SlackSmall(rounds);
  }

  lemma {:induction false} DmaCapped(b: Block)
    requires Capped(b)
    ensures DeviceDma(b.sys) <= Rowwise(|b.rows|, DMA_CAP)
  {
    var n := |b.rows|;
    assert b.sys.totaldiskread / 128 <= n * 33554432 && b.sys.totaldiskwrite / 128 <= n * 33554432;
  }

  // ------------------------------------------------------------ over a window

  ghost predicate AllCapped(bs: seq<Block>) {
    forall i :: 0 <= i < |bs| ==> Capped(bs[i]) && NetRows(bs[i].rows)
  }

  lemma {:induction false} FiguresNotNegative(bs: seq<Block>)
    requires AllCapped(bs)
    ensures NotNegative(bs, DiskRow) && NotNegative(bs, DmaRow)
  {
    forall k, l | 0 <= k < |bs| && 0 <= l < |bs[k].rows|
      ensures DiskRow(bs[k].rows[l]) >= 0.0 && DmaRow(bs[k].rows[l]) >= 0.0
    {
      DiskRowNotNegative(bs[k].rows[l]);
    }
  }

  lemma {:induction false} DiskPerRow(bs: seq<Block>)
    requires AllCapped(bs)
    ensures PerRow(bs, DeviceDisk, DISK_CAP)
  {
    forall k | 0 <= k < |bs|
      ensures DeviceDisk(bs[k].sys) <= Rowwise(|bs[k].rows|, DISK_CAP)
    {
      DiskCapped(bs[k]);
    }
  }

  lemma {:induction false} DmaPerRow(bs: seq<Block>)
    requires AllCapped(bs)
    ensures PerRow(bs, DeviceDma, DMA_CAP)
  {
    forall k | 0 <= k < |bs|
      ensures DeviceDma(bs[k].sys) <= Rowwise(|bs[k].rows|, DMA_CAP)
    {
      DmaCapped(bs[k]);
    }
  }

  /** Over these rounds the processes exceed the device, for disk and memory, by more than the brackets allow. */
  ghost predicate ExceedsIn(bs: seq<Block>) {
    && BlocksTotal(bs, DiskRow) > DeviceTotal(SysIn(bs), DeviceDisk)
    && BlocksTotal(bs, DmaRow) > DeviceTotal(SysIn(bs), DeviceDma) + Slack(|bs|)
  }

  lemma {:induction false} CapsNotNegative()
    ensures DISK_CAP >= 0.0 && DMA_CAP >= 0.0
  {
  }

  /** With one fallen row among them they do. */
  lemma {:induction false} FallenOutweighs(bs: seq<Block>, i: nat)
    requires AllCapped(bs) && RowCount(bs) <= MANY && |bs| <= CLEAN_INTERVAL
    requires i < |bs| && HasFallen(bs[i])
    ensures ExceedsIn(bs)
  {
    var j :| 0 <= j < |bs[i].rows| && FallenRow(bs[i].rows[j]);
    var x := bs[i].rows[j];
    assert x.cancelledWriteBytes <= x.writeBytes;
    CapsNotNegative();
    FiguresNotNegative(bs);
    DiskPerRow(bs);
    DmaPerRow(bs);
    FallenDiskRow(x);
    FallenDmaRow(x, |bs|);
    OneRowOutweighs(bs, i, j, DiskRow, DeviceDisk, DISK_CAP, 0.0);
    OneRowOutweighs(bs, i, j, DmaRow, DeviceDma, DMA_CAP, Slack(|bs|));
  }

  /** Rounds a second apart: no more of them in a window than it has seconds. */
  lemma {:induction false} WindowIsShort(bs: seq<Block>, length: int, now: int, last: int)
    requires Distinct(bs) && forall i :: 0 <= i < |bs| ==> bs[i].sys.time <= last
    ensures |WindowBlocks(bs, length, now)| <= Max(Min(last, now) - (now - length), 0)
  {
    if bs != [] {
      var n := |bs| - 1;
      assert forall i :: 0 <= i < n ==> bs[i].sys.time < bs[n].sys.time;
      WindowIsShort(bs[..n], length, now, bs[n].sys.time - 1);
    }
  }

  lemma {:induction false} InTheWindow(bs: seq<Block>, i: nat, length: int, now: int)
    requires i < |bs| && InWindow(bs[i].sys.time, length, now)
    ensures bs[i] in WindowBlocks(bs, length, now)
  {
    var n := |bs| - 1;
    if i < n {
      InTheWindow(bs[..n], i, length, now);
    }
  }

  /** The rounds of a run in a window. */
  function WindowOf(board: seq<ProcessInfo>, rs: seq<Input>, length: int, now: int): seq<Block>
    requires |board| == BOARD_SIZE
  {
    WindowBlocks(Blocks(Initial(board), rs), length, now)
  }

  /** Few enough rows: 2^26 in the whole window. */
  predicate FewRows(board: seq<ProcessInfo>, rs: seq<Input>, length: int, now: int)
    requires |board| == BOARD_SIZE
  {
    RowCount(WindowOf(board, rs, length, now)) <= MANY
  }

  lemma {:induction false} BlockCapped(board: seq<ProcessInfo>, rs: seq<Input>, w: seq<Block>, k: nat)
    requires |board| == BOARD_SIZE && k < |w| && w[k] in Blocks(Initial(board), rs) && RowCount(w) <= MANY
    ensures Capped(w[k]) && NetRows(w[k].rows)
  {
    var bs := Blocks(Initial(board), rs);
    var i :| 0 <= i < |bs| && bs[i] == w[k];
    CountAtLeast(w, k);
    RoundCapped(Before(board, rs, i), rs[i]);
  }

  lemma {:induction false} WindowCapped(board: seq<ProcessInfo>, rs: seq<Input>, length: int, now: int)
    requires |board| == BOARD_SIZE && FewRows(board, rs, length, now)
    ensures AllCapped(WindowOf(board, rs, length, now))
  {
    var w := WindowOf(board, rs, length, now);
    WindowOfSys(Blocks(Initial(board), rs), length, now);
    forall k | 0 <= k < |w|
      ensures Capped(w[k]) && NetRows(w[k].rows)
    {
      assert w[k] in w;
      BlockCapped(board, rs, w, k);
    }
  }

  lemma {:induction false} FewRounds(board: seq<ProcessInfo>, rs: seq<Input>, length: int, now: int)
    requires |board| == BOARD_SIZE && Clocked(rs) && length <= CLEAN_INTERVAL
    ensures |WindowOf(board, rs, length, now)| <= CLEAN_INTERVAL
  {
    var bs := Blocks(Initial(board), rs);
    LogOfRun(board, rs);
    WindowIsShort(bs, length, now, if bs == [] then now else bs[|bs| - 1].sys.time);
  }

  // ------------------------------------------------------ processes that fell

  /** The read counter of an active process fell, by less than 2^59. */
  predicate ReadFell(s: Slots, curr: bool) {
    0 < s.Get(!curr).readBytes - s.Get(curr).readBytes < FALL
  }

  /** In this round the read counter of process `k`, which is active, fell. */
  ghost predicate Fell(s: State, r: Input, k: int) {
    var slots := Lookup(Scanned(s, r).entries, k).slots;
    Active(slots, s.curr) && ReadFell(slots, s.curr)
  }

  ghost predicate NoneFell(s: State, r: Input) {
    forall k :: k in Scanned(s, r).entries ==> !Fell(s, r, k)
  }

  /** Every active process has its byte counters in order, or its read counter fell. */
  ghost predicate InOrderOrFell(s: State, r: Input) {
    forall k :: k in Scanned(s, r).entries ==> EntryOk(s, r, k) || Fell(s, r, k)
  }

  lemma {:induction false} FallShows(slots: Slots, f: Frame)
    requires ReadFell(slots, f.curr)
    ensures FallenRow(RowOf(slots, f))
  {
    var a, b := slots.Get(!f.curr).readBytes, slots.Get(f.curr).readBytes;
    WrappedFall(b, a);
    assert RowOf(slots, f).readBytes == Subcount64(b, a);
  }

  lemma {:induction false} WrappedFall(newval: u64, oldval: u64)
    requires 0 < oldval - newval < FALL
    ensures Subcount64(newval, oldval) == MAXU64VAL - (oldval - newval)
  {
  }

  lemma {:induction false} FellShows(s: State, r: Input, k: int)
    requires Sound(s) && Fell(s, r, k)
    ensures HasFallen(BlockOf(s, r))
  {
    var s1 := Scanned(s, r);
    var slots, rows := Lookup(s1.entries, k).slots, RoundRows(s, r);
    ScannedSound(s, r);
    PreOrderListsKeysOnce(s1.tree);
    RowIsThere(PreOrder(s1.tree), s1.entries, FrameOf(s, r), k);
    FallShows(slots, FrameOf(s, r));
    var i :| 0 <= i < |rows| && rows[i] == RowOf(slots, FrameOf(s, r));
    assert FallenRow(rows[i]);
  }

  // ------------------------------------------------------------ what it does

  /** Summed over all processes by queries, the figures of a window exceed those of the device by far. */
  ghost predicate Exceeded(t: Store, pids: seq<int>, rounds: nat, length: int, now: int) {
    var sys := SelectSys(t.sysInfo, length, now);
    && PerProcess(pids, t.processInfo, DiskRow, length, now) > SystemTotal(sys).edisk
    && PerProcess(pids, t.processInfo, DmaRow, length, now) > DeviceTotal(sys, DeviceDma) + Slack(rounds)
  }

  lemma {:induction false} ExceedsByQueries(t: Store, bs: seq<Block>, pids: seq<int>, length: int, now: int)
    requires Timed(bs) && AllProcesses(pids, bs) && SameToQueries(t, bs, length, now)
    ensures Exceeded(t, pids, |WindowBlocks(bs, length, now)|, length, now) <==>
            ExceedsIn(WindowBlocks(bs, length, now))
  {
    QueriesAreWindow(pids, t, bs, DiskRow, DeviceDisk, length, now);
    QueriesAreWindow(pids, t, bs, DmaRow, DeviceDma, length, now);
  }

  /** One process whose read counter fell, in one round of the window, is enough. */
  lemma {:induction false} OneFallExceeds(board: seq<ProcessInfo>, rs: seq<Input>, pids: seq<int>,
                                          early: bool, length: int, now: int, i: nat, k: int)
    requires |board| == BOARD_SIZE && Clocked(rs) && Asked(rs, early, length, now)
    requires AllProcesses(pids, Blocks(Initial(board), rs)) && FewRows(board, rs, length, now)
    requires i < |rs| && InWindow(rs[i].ctime, length, now) && Fell(Before(board, rs, i), rs[i], k)
    ensures Exceeded(TablesAt(board, rs, early), pids, |WindowOf(board, rs, length, now)|, length, now)
  {
    LogOfRun(board, rs);
    QueriesSeeWholeLog(board, rs, early, length, now);
    FallExceedsIn(board, rs, length, now, i, k);
    ExceedsByQueries(TablesAt(board, rs, early), Blocks(Initial(board), rs), pids, length, now);
  }

  lemma {:induction false} FallExceedsIn(board: seq<ProcessInfo>, rs: seq<Input>, length: int, now: int, i: nat, k: int)
    requires |board| == BOARD_SIZE && Clocked(rs) && length <= CLEAN_INTERVAL && FewRows(board, rs, length, now)
    requires i < |rs| && InWindow(rs[i].ctime, length, now) && Fell(Before(board, rs, i), rs[i], k)
    ensures ExceedsIn(WindowOf(board, rs, length, now))
  {
    var w := WindowOf(board, rs, length, now);
    WindowCapped(board, rs, length, now);
    FewRounds(board, rs, length, now);
    FallInWindow(board, rs, length, now, i, k);
    var j :| 0 <= j < |w| && HasFallen(w[j]);
    FallenOutweighs(w, j);
  }

  lemma {:induction false} FallInWindow(board: seq<ProcessInfo>, rs: seq<Input>, length: int, now: int, i: nat, k: int)
    requires |board| == BOARD_SIZE && Clocked(rs)
    requires i < |rs| && InWindow(rs[i].ctime, length, now) && Fell(Before(board, rs, i), rs[i], k)
    ensures exists j :: 0 <= j < |WindowOf(board, rs, length, now)| && HasFallen(WindowOf(board, rs, length, now)[j])
  {
    var bs, w := Blocks(Initial(board), rs), WindowOf(board, rs, length, now);
    LogOfRun(board, rs);
    InitialSound(board);
    RunSound(Initial(board), rs[..i]);
    FellShows(Before(board, rs, i), rs[i], k);
    InTheWindow(bs, i, length, now);
    var j :| 0 <= j < |w| && w[j] == bs[i];
    assert HasFallen(w[j]);
  }

  // ------------------------------------------------ exactly when it happens

  ghost predicate InOrderOrFellInWindow(board: seq<ProcessInfo>, rs: seq<Input>, length: int, now: int)
    requires |board| == BOARD_SIZE
  {
    forall i :: 0 <= i < |rs| && InWindow(rs[i].ctime, length, now) ==> InOrderOrFell(Before(board, rs, i), rs[i])
  }

  ghost predicate NoneFellInWindow(board: seq<ProcessInfo>, rs: seq<Input>, length: int, now: int)
    requires |board| == BOARD_SIZE
  {
    forall i :: 0 <= i < |rs| && InWindow(rs[i].ctime, length, now) ==> NoneFell(Before(board, rs, i), rs[i])
  }

  lemma {:induction false} RowsOfRoundFew(board: seq<ProcessInfo>, rs: seq<Input>, length: int, now: int, i: nat)
    requires |board| == BOARD_SIZE && FewRows(board, rs, length, now) && Clocked(rs)
    requires i < |rs| && InWindow(rs[i].ctime, length, now)
    ensures |RoundRows(Before(board, rs, i), rs[i])| <= MANY
  {
    var bs, w := Blocks(Initial(board), rs), WindowOf(board, rs, length, now);
    LogOfRun(board, rs);
    InTheWindow(bs, i, length, now);
    var j :| 0 <= j < |w| && w[j] == bs[i];
    CountAtLeast(w, j);
  }

  /** Where none fell, all counters are in order. */
  lemma {:induction false} NoneFellMeansBytesOk(board: seq<ProcessInfo>, rs: seq<Input>, length: int, now: int)
    requires |board| == BOARD_SIZE && Clocked(rs) && FewRows(board, rs, length, now)
    requires InOrderOrFellInWindow(board, rs, length, now) && NoneFellInWindow(board, rs, length, now)
    ensures BytesOkInWindow(board, rs, length, now)
  {
    forall i | 0 <= i < |rs| && InWindow(rs[i].ctime, length, now)
      ensures BytesOk(Before(board, rs, i), rs[i])
    {
      InitialSound(board);
      RunSound(Initial(board), rs[..i]);
      RowsOfRoundFew(board, rs, length, now, i);
      BytesOkIff(Before(board, rs, i), rs[i]);
    }
  }

  /** Where one fell, the figures of the processes exceed those of the device. */
  lemma {:induction false} SomeFellMeansExceeded(board: seq<ProcessInfo>, rs: seq<Input>, pids: seq<int>,
                                                 early: bool, length: int, now: int)
    requires |board| == BOARD_SIZE && Clocked(rs) && Asked(rs, early, length, now)
    requires AllProcesses(pids, Blocks(Initial(board), rs)) && FewRows(board, rs, length, now)
    requires !NoneFellInWindow(board, rs, length, now)
    ensures Exceeded(TablesAt(board, rs, early), pids, |WindowOf(board, rs, length, now)|, length, now)
  {
    var i :| 0 <= i < |rs| && InWindow(rs[i].ctime, length, now) && !NoneFell(Before(board, rs, i), rs[i]);
    var k :| k in Scanned(Before(board, rs, i), rs[i]).entries && Fell(Before(board, rs, i), rs[i], k);
    OneFallExceeds(board, rs, pids, early, length, now, i, k);
  }

  /** The processes are within the device for disk. */
  ghost predicate DiskWithin(t: Store, pids: seq<int>, length: int, now: int) {
    PerProcess(pids, t.processInfo, DiskRow, length, now) <= SystemTotal(SelectSys(t.sysInfo, length, now)).edisk
  }

  /** The processes are within the bracket for memory. */
  ghost predicate DmaWithin(t: Store, pids: seq<int>, rounds: nat, length: int, now: int) {
    PerProcess(pids, t.processInfo, DmaRow, length, now) <=
    DeviceTotal(SelectSys(t.sysInfo, length, now), DeviceDma) + Slack(rounds)
  }

  ghost predicate Within(t: Store, pids: seq<int>, rounds: nat, length: int, now: int) {
    DiskWithin(t, pids, length, now) && DmaWithin(t, pids, rounds, length, now)
  }

  /**
   Where every active process has its byte counters in order, unless its read counter fell, the
   energy of the processes stays within the device's, for disk, and within two lines a round of it,
   for memory, exactly if none fell; otherwise both are exceeded.
   */
  lemma {:induction false} WithinIffNoneFell(board: seq<ProcessInfo>, rs: seq<Input>, pids: seq<int>,
                                             early: bool, length: int, now: int)
    requires |board| == BOARD_SIZE && Clocked(rs) && Asked(rs, early, length, now)
    requires AllProcesses(pids, Blocks(Initial(board), rs)) && FewRows(board, rs, length, now)
    requires InOrderOrFellInWindow(board, rs, length, now)
    ensures var t, rounds := TablesAt(board, rs, early), |WindowOf(board, rs, length, now)|;
            && (NoneFellInWindow(board, rs, length, now) <==> Within(t, pids, rounds, length, now))
            && (!NoneFellInWindow(board, rs, length, now) <==> Exceeded(t, pids, rounds, length, now))
  {
    var t, rounds := TablesAt(board, rs, early), |WindowOf(board, rs, length, now)|;
    NotBoth(t, pids, rounds, length, now);
    if NoneFellInWindow(board, rs, length, now) {
      NoneFellMeansBytesOk(board, rs, length, now);
      BytesOkMeansDiskWithin(board, rs, pids, early, length, now);
      BytesOkMeansDmaWithin(board, rs, pids, early, length, now);
    } else {
      SomeFellMeansExceeded(board, rs, pids, early, length, now);
    }
  }

  lemma {:induction false} NotBoth(t: Store, pids: seq<int>, rounds: nat, length: int, now: int)
    ensures !(Within(t, pids, rounds, length, now) && Exceeded(t, pids, rounds, length, now))
  {
  }

  lemma {:induction false} BytesOkMeansDiskWithin(board: seq<ProcessInfo>, rs: seq<Input>, pids: seq<int>,
                                                  early: bool, length: int, now: int)
    requires |board| == BOARD_SIZE && Clocked(rs) && Asked(rs, early, length, now)
    requires AllProcesses(pids, Blocks(Initial(board), rs)) && BytesOkInWindow(board, rs, length, now)
    ensures DiskWithin(TablesAt(board, rs, early), pids, length, now)
  {
    DiskEnergyConserved(board, rs, pids, early, length, now);
  }

  lemma {:induction false} BytesOkMeansDmaWithin(board: seq<ProcessInfo>, rs: seq<Input>, pids: seq<int>,
                                                 early: bool, length: int, now: int)
    requires |board| == BOARD_SIZE && Clocked(rs) && Asked(rs, early, length, now)
    requires AllProcesses(pids, Blocks(Initial(board), rs)) && BytesOkInWindow(board, rs, length, now)
    ensures DmaWithin(TablesAt(board, rs, early), pids, |WindowOf(board, rs, length, now)|, length, now)
  {
    DmaEnergyBracketed(board, rs, pids, early, length, now);
  }

  // --------------------------------------------------------- stale samples

  /** One of the samples has read more than the other, by less than 2^59. */
  predicate ReadsDiffer(s: Slots) {
    s.first.readBytes != s.second.readBytes && -FALL < s.first.readBytes - s.second.readBytes < FALL
  }

  /** The slot with fewer bytes read is current in one of any two rounds running. */
  lemma {:induction false} StaleFalls(s: State, r1: Input, r2: Input, k: int)
    requires Sound(s) && Absent([r1, r2], k)
    requires var slots := Lookup(s.entries, k).slots;
             Frozen(slots) && slots.first.pid > 0 && slots.second.pid > 0 && ReadsDiffer(slots)
    ensures Fell(s, r1, k) || Fell(Step(s, r1), r2, k)
  {
    var slots := Lookup(s.entries, k).slots;
    assert ProbesOf([r1, r2][0].listing, k) == [] && ProbesOf([r1, r2][1].listing, k) == [];
    StepOne(s, r1, k);
    StepOne(Step(s, r1), r2, k);
    ActiveIffDiffer(slots, true);
    ActiveIffDiffer(slots, false);
  }

  /**
   A process that read from the disk in its last interval and then exited makes the processes
   exceed the device in every window of two later rounds, for as long as the program runs.
   */
  lemma {:induction false} StaleBytesExceed(board: seq<ProcessInfo>, rs: seq<Input>, pids: seq<int>,
                                            early: bool, length: int, now: int, i: nat, k: int)
    requires |board| == BOARD_SIZE && Clocked(rs) && Asked(rs, early, length, now)
    requires AllProcesses(pids, Blocks(Initial(board), rs)) && FewRows(board, rs, length, now)
    requires i + 1 < |rs| && Absent([rs[i], rs[i + 1]], k)
    requires InWindow(rs[i].ctime, length, now) && InWindow(rs[i + 1].ctime, length, now)
    requires var slots := Lookup(Before(board, rs, i).entries, k).slots;
             Frozen(slots) && slots.first.pid > 0 && slots.second.pid > 0 && ReadsDiffer(slots)
    ensures Exceeded(TablesAt(board, rs, early), pids, |WindowOf(board, rs, length, now)|, length, now)
  {
    InitialSound(board);
    RunSound(Initial(board), rs[..i]);
    RunNext(Initial(board), rs, i);
    StaleFalls(Before(board, rs, i), rs[i], rs[i + 1], k);
    if Fell(Before(board, rs, i), rs[i], k) {
      OneFallExceeds(board, rs, pids, early, length, now, i, k);
    } else {
      OneFallExceeds(board, rs, pids, early, length, now, i + 1, k);
    }
  }
}
