/**
 A round in which the busiest process is not listed: it is the last one that the write pass
 visits, and the list is full by then.
 */
module Latecomer {
  import opened Counters
  import opened Floats
  import opened Samples
  import opened Tables
  import opened Ranking
  import opened AvlShape
  import opened Rounds
  import opened Outputs
  import opened Histories

  // ------------------------------------------------------------ the input

  function CrowdPids(n: nat): seq<int> {
    seq(n, i requires 0 <= i < n => i + 1)
  }

  /** The process whose node comes last in pre-order when `n` new processes have been inserted. */
  function LastVisited(n: nat): int {
    var keys := PreOrder(InsertAll(Nil, CrowdPids(n)));
    if keys == [] then 0 else keys[|keys| - 1]
  }

  function TicksIn(k: int, busy: int): u64 {
    if k == busy then 99 else 1
  }

  function Sample(pid: int, busy: int): PidStats {
    ZERO_STATS.(utime := TicksIn(pid, busy))
  }

  /** The processors were busy for so long. */
  const BUSY_TICKS: u64 := 100

  const FRAME := Frame(true, 0, BUSY_TICKS, true)

  /** Processes 1 to `n` have run for one tick each, but `busy` has run for 99. */
  function Crowd(n: nat, busy: int): seq<Probe>
    requires n < TWO32 - 1
  {
    seq(n, i requires 0 <= i < n => Probe(i + 1, true, Sample(i + 1, busy), false, 0))
  }

  function CrowdedRound(n: nat, busy: int): Input
    requires n < TWO32 - 1
  {
    Input(0, 0, CpuLine(BUSY_TICKS, 0, 0, 0, 0, 0, 0, 0, 0), Crowd(n, busy), 0.0, 0, 0, 0, true, 0, 0)
  }

  // ------------------------------------------------------ what is visited

  lemma {:induction false} AsManyElements(xs: seq<int>)
    requires NoDuplicates(xs)
    ensures |SetOf(xs)| == |xs|
  {
    if xs != [] {
      var n := |xs| - 1;
      AsManyElements(xs[..n]);
      assert xs == xs[..n] + [xs[n]] && xs[n] !in xs[..n];
      assert SetOf(xs) == SetOf(xs[..n]) + {xs[n]};
    }
  }

  lemma {:induction false} KeysInserted(pids: seq<int>)
    ensures SearchTree(InsertAll(Nil, pids)) && Keys(InsertAll(Nil, pids)) == SetOf(pids)
  {
    InsertAllOk(Nil, pids);
  }

  lemma {:induction false} KeysVisited(t: Tree, pids: seq<int>)
    requires NoDuplicates(pids) && SearchTree(t) && Keys(t) == SetOf(pids)
    ensures NoDuplicates(PreOrder(t)) && |PreOrder(t)| == |pids| && SetOf(PreOrder(t)) == SetOf(pids)
  {
    var keys := PreOrder(t);
    PreOrderListsKeysOnce(t);
    AsManyElements(pids);
    AsManyElements(keys);
    assert SetOf(keys) == Keys(t);
  }

  /** Inserting different keys into an empty tree, their pre-order is as long as their list. */
  lemma {:induction false} VisitedOnce(pids: seq<int>)
    requires NoDuplicates(pids)
    ensures var keys := PreOrder(InsertAll(Nil, pids));
            NoDuplicates(keys) && |keys| == |pids| && SetOf(keys) == SetOf(pids)
  {
    KeysInserted(pids);
    KeysVisited(InsertAll(Nil, pids), pids);
  }

  lemma {:induction false} NotListed(listing: seq<Probe>, k: int)
    requires k !in Pids(listing)
    ensures ProbesOf(listing, k) == []
  {
    if listing != [] {
      var n := |listing| - 1;
      assert Pids(listing) == Pids(listing[..n]) + [listing[n].pid];
      NotListed(listing[..n], k);
    }
  }

  lemma {:induction false} LastIsNew(xs: seq<int>, n: nat)
    requires NoDuplicates(xs) && |xs| == n + 1
    ensures NoDuplicates(xs[..n]) && xs[n] !in xs[..n]
  {
  }

  lemma {:induction false} ListedOnce(listing: seq<Probe>, i: nat)
    requires NoDuplicates(Pids(listing)) && i < |listing|
    ensures ProbesOf(listing, listing[i].pid) == [listing[i]]
  {
    var n := |listing| - 1;
    var pids := Pids(listing);
    assert pids[..n] == Pids(listing[..n]);
    LastIsNew(pids, n);
    if i == n {
      assert pids[n] == listing[n].pid;
      NotListed(listing[..n], pids[n]);
    } else {
      ListedOnce(listing[..n], i);
      assert pids[i] != pids[n];
    }
  }

  // --------------------------------------------------------------- the rows

  lemma {:induction false} RowsOfAll(keys: seq<int>, m: Entries, f: Frame)
    requires forall k :: k in keys ==> Active(Lookup(m, k).slots, f.curr)
    ensures |RowsOf(keys, m, f)| == |keys|
    ensures forall i :: 0 <= i < |keys| ==> RowsOf(keys, m, f)[i] == RowOf(Lookup(m, keys[i]).slots, f)
  {
    if keys != [] {
      RowsOfAll(keys[1..], m, f);
      assert keys == [keys[0]] + keys[1..];
      assert RowsOf(keys, m, f) == [RowOf(Lookup(m, keys[0]).slots, f)] + RowsOf(keys[1..], m, f);
    }
  }

  lemma {:induction false} ShownAll(rows: seq<ProcessInfo>)
    requires forall i :: 0 <= i < |rows| ==> Shown(rows[i])
    ensures ShownOf(rows, true) == rows
  {
    if rows != [] {
      ShownAll(rows[1..]);
      assert rows == [rows[0]] + rows[1..];
    }
  }

  // ---------------------------------------------------- the crowded round

  /** What the round finds of process `k`: nothing before, one sample now. */
  lemma {:induction false} CrowdEntry(n: nat, busy: int, k: int)
    requires n < TWO32 - 1 && 1 <= k <= n
    ensures Lookup(Scan(map[], true, Crowd(n, busy)), k).slots == Slots(ZERO_STATS, Sample(k, busy).(pid := k))
  {
    var listing := Crowd(n, busy);
    assert Pids(listing) == CrowdPids(n);
    ListedOnce(listing, k - 1);
    ScanOne(map[], true, listing, k);
    assert [listing[k - 1]][..0] == [];
    assert ProbeAll(NEW_ENTRY, true, [listing[k - 1]]) == ProbeEntry(NEW_ENTRY, true, listing[k - 1]);
  }

  lemma {:induction false} FreshTicks(p: PidStats)
    requires p.stime == 0
    ensures CpuTicks(UndoDips(p, ZERO_STATS), ZERO_STATS) == p.utime
  {
  }

  /** The row of a new process that has run for some ticks shows them all. */
  lemma {:induction false} FreshRow(p: PidStats, f: Frame)
    requires f.curr && p.pid > 0 && p.utime > 0 && p.stime == 0
    ensures var s := Slots(ZERO_STATS, p);
            && Active(s, true) && Shown(RowOf(s, f))
            && RowOf(s, f).pid == p.pid && RowOf(s, f).cpu == Percent(p.utime, f.itv)
  {
    FreshTicks(p);
    PercentPositive(p.utime, f.itv);
  }

  /** The records of the round, in the order in which they are offered. */
  lemma {:induction false} CrowdRecords(board: seq<ProcessInfo>, n: nat, busy: int)
    requires |board| == BOARD_SIZE && n < TWO32 - 1
    ensures var keys := PreOrder(InsertAll(Nil, CrowdPids(n)));
            var recs := RoundRecords(Initial(board), CrowdedRound(n, busy));
            && NoDuplicates(keys) && |recs| == |keys| == n
            && forall i :: 0 <= i < n ==>
                 recs[i].pid == keys[i] && recs[i].cpu == Percent(TicksIn(keys[i], busy), BUSY_TICKS)
  {
    var s, r := Initial(board), CrowdedRound(n, busy);
    var pids := CrowdPids(n);
    var keys, m, f := PreOrder(InsertAll(Nil, pids)), Scan(map[], true, r.listing), FRAME;
    assert Pids(r.listing) == pids;
    VisitedOnce(pids);
    assert FrameOf(s, r) == f;
    forall k | k in keys
      ensures 1 <= k <= n
      ensures Lookup(m, k).slots == Slots(ZERO_STATS, Sample(k, busy).(pid := k))
    {
      assert k in SetOf(pids);
      CrowdEntry(n, busy, k);
    }
    CrowdRows(keys, m, f, busy);
  }

  lemma {:induction false} CrowdRows(keys: seq<int>, m: Entries, f: Frame, busy: int)
    requires f.curr
    requires forall k :: k in keys ==>
               0 < k < TWO32 && Lookup(m, k).slots == Slots(ZERO_STATS, Sample(k, busy).(pid := k))
    ensures var rows := RowsOf(keys, m, f);
            && ShownOf(rows, true) == rows && |rows| == |keys|
            && forall i :: 0 <= i < |keys| ==>
                 rows[i].pid == keys[i] && rows[i].cpu == Percent(TicksIn(keys[i], busy), f.itv)
  {
    forall k | k in keys
      ensures Active(Lookup(m, k).slots, true)
    {
      FreshRow(Sample(k, busy).(pid := k), f);
    }
    RowsOfAll(keys, m, f);
    var rows := RowsOf(keys, m, f);
    forall i | 0 <= i < |keys|
      ensures Shown(rows[i]) && rows[i].pid == keys[i] && rows[i].cpu == Percent(TicksIn(keys[i], busy), f.itv)
    {
      FreshRow(Sample(keys[i], busy).(pid := keys[i]), f);
    }
    ShownAll(rows);
  }

  /** The last record is the busiest. */
  lemma {:induction false} LastIsBusiest(board: seq<ProcessInfo>, n: nat)
    requires |board| == BOARD_SIZE && 1 < n < TWO32 - 1
    ensures var recs := RoundRecords(Initial(board), CrowdedRound(n, LastVisited(n)));
            && |recs| == n && recs[n - 1].pid == LastVisited(n) && Less(recs[0].cpu, recs[n - 1].cpu)
            && forall i :: 0 <= i < n - 1 ==> recs[i].pid != LastVisited(n)
  {
    CrowdRecords(board, n, LastVisited(n));
    PercentOrder(1, 99, BUSY_TICKS);
  }

  /**
   With more than 40 processes of one tick each, the process visited last is not listed,
   although it has 99 ticks: the list is not the true top 40.
   */
  lemma {:induction false} BusyLatecomerIsDropped(board: seq<ProcessInfo>, n: nat)
    requires |board| == BOARD_SIZE && SHOW_NUM < n < TWO32 - 1
    ensures var s, r := Initial(board), CrowdedRound(n, LastVisited(n));
            var top := WritePass(Scanned(s, r), r).board[..SHOW_NUM];
            && !TrueTop(top, RoundRecords(s, r))
            && forall x :: x in top ==> x.pid != LastVisited(n)
  {
    var s, r := Initial(board), CrowdedRound(n, LastVisited(n));
    LastIsBusiest(board, n);
    LateAndBusy(s, r, 0, n - 1);
    OnlyEarlyOnes(s, r, LastVisited(n));
  }

  lemma {:induction false} LateAndBusy(s: State, r: Input, i: nat, j: nat)
    requires |s.board| == BOARD_SIZE && i < SHOW_NUM <= j < |RoundRecords(s, r)|
    requires Less(RoundRecords(s, r)[i].cpu, RoundRecords(s, r)[j].cpu)
    ensures !TrueTop(WritePass(Scanned(s, r), r).board[..SHOW_NUM], RoundRecords(s, r))
  {
    var recs := RoundRecords(s, r);
    assert recs[..SHOW_NUM][i] == recs[i] && recs[SHOW_NUM..][j - SHOW_NUM] == recs[j];
    assert recs[i] in recs[..SHOW_NUM] && recs[j] in recs[SHOW_NUM..];
    RoundTopIff(s, r);
  }

  /** What is listed is among the first 40 records. */
  lemma {:induction false} OnlyEarlyOnes(s: State, r: Input, pid: int)
    requires |s.board| == BOARD_SIZE && |RoundRecords(s, r)| >= SHOW_NUM
    requires forall i :: 0 <= i < SHOW_NUM ==> RoundRecords(s, r)[i].pid != pid
    ensures forall x :: x in WritePass(Scanned(s, r), r).board[..SHOW_NUM] ==> x.pid != pid
  {
    var recs, top := RoundRecords(s, r), WritePass(Scanned(s, r), r).board[..SHOW_NUM];
    RoundRanking(s, r);
    forall x | x in top
      ensures x.pid != pid
    {
      assert x in multiset(top) && x in recs[..SHOW_NUM];
      var i :| 0 <= i < SHOW_NUM && recs[i] == x;
    }
  }
}
