/**
 The columns of the rows of a process, against what was read of it: row by row, and added up
 over a run.
 */
module Columns {
  import opened Arithmetic
  import opened Counters
  import opened Floats
  import opened Samples
  import opened Tables
  import opened Ranking
  import opened AvlShape
  import opened Rounds
  import opened Outputs
  import opened Histories
  import opened Log
  import opened Accounting

  // ------------------------------------------------------- rows and slots

  /** The slots of process `k` when the rows of the round are written. */
  function SlotsIn(s: State, r: Input, k: int): Slots {
    Lookup(Scanned(s, r).entries, k).slots
  }

  lemma {:induction false} RowsAreOfSlots(keys: seq<int>, m: Entries, f: Frame)
    requires EntriesNamed(m)
    ensures forall i :: 0 <= i < |RowsOf(keys, m, f)| ==>
              var x := RowsOf(keys, m, f)[i];
              Active(Lookup(m, x.pid).slots, f.curr) && x == RowOf(Lookup(m, x.pid).slots, f)
  {
    if keys != [] {
      RowsAreOfSlots(keys[1..], m, f);
      var s, rest := Lookup(m, keys[0]).slots, RowsOf(keys[1..], m, f);
      if Active(s, f.curr) {
        assert s.Get(f.curr).pid == keys[0];
        assert RowsOf(keys, m, f) == [RowOf(s, f)] + rest;
      } else {
        assert RowsOf(keys, m, f) == rest;
      }
    }
  }

  /** Each row of a round is that of the slots of its process. */
  lemma {:induction false} RoundRowsAreOfSlots(s: State, r: Input, x: ProcessInfo)
    requires Sound(s) && x in RoundRows(s, r)
    ensures Active(SlotsIn(s, r, x.pid), s.curr) && x == RowOf(SlotsIn(s, r, x.pid), FrameOf(s, r))
  {
    ScannedSound(s, r);
    RowsAreOfSlots(PreOrder(Scanned(s, r).tree), Scanned(s, r).entries, FrameOf(s, r));
  }

  // -------------------------------------------------- a row of two good reads

  /** The columns of a row that show what was read, and the change since the read before. */
  ghost predicate ShowsReads(x: ProcessInfo, a: PidStats, b: PidStats) {
    && x.vsz == b.vsz && x.rss == b.rss
    && (a.readBytes <= b.readBytes ==> x.readBytes == b.readBytes - a.readBytes)
    && (a.writeBytes <= b.writeBytes ==> x.writeBytes == b.writeBytes - a.writeBytes)
    && (a.writeBytes <= b.writeBytes && a.cancelledWriteBytes <= b.cancelledWriteBytes ==>
          x.cancelledWriteBytes == Min(b.cancelledWriteBytes - a.cancelledWriteBytes, b.writeBytes - a.writeBytes))
    && (a.netsnd <= b.netsnd ==> x.netsnd == b.netsnd - a.netsnd)
    && (a.netrcv <= b.netrcv ==> x.netrcv == b.netrcv - a.netrcv)
  }

  lemma {:induction false} RowShowsReads(slots: Slots, f: Frame, a: PidStats, b: PidStats)
    requires SameRead(slots.Get(f.curr), b)
    requires slots.Get(!f.curr) == a.(utime := slots.Get(!f.curr).utime, stime := slots.Get(!f.curr).stime,
                                      gtime := slots.Get(!f.curr).gtime,
                                      cpuAccesses := slots.Get(!f.curr).cpuAccesses)
    ensures ShowsReads(RowOf(slots, f), a, b)
  {
  }

  /**
   The row of a process that was read well in this round and the last shows the sizes of this
   read, and of every counter that has not gone down the true difference of the two reads.
   */
  lemma {:induction false} TwoReadsShown(s: State, r1: Input, r2: Input, k: int, x: ProcessInfo)
    requires Sound(s) && k > 0 && ReadWell(r1, k) && ReadWell(r2, k)
    requires x in RoundRows(Step(s, r1), r2) && x.pid == k
    ensures ShowsReads(x, LastRead(r1, k), LastRead(r2, k))
  {
    var s1 := Step(s, r1);
    StepSound(s, r1);
    SlotsAtWrite(s, r1, r2, k);
    RoundRowsAreOfSlots(s1, r2, x);
    RowShowsReads(SlotsIn(s1, r2, k), FrameOf(s1, r2), LastRead(r1, k), LastRead(r2, k));
  }

  /**
   Also the shares of time, against the times kept of the last round, when none went down. The
   column for user time shows what is left of 2^64 ticks when guests ran, and nothing otherwise.
   */
  lemma {:induction false} TimesShown(s: State, r: Input, k: int, x: ProcessInfo)
    requires Sound(s) && k > 0 && ReadWell(r, k) && x in RoundRows(s, r) && x.pid == k
    requires TimesRise(TrackOf(s, k).Kept(), LastRead(r, k))
    ensures var a, b, itv := TrackOf(s, k).Kept(), LastRead(r, k), FrameOf(s, r).itv;
            && x.stime == Percent(b.stime - a.stime, itv) && x.gtime == Percent(b.gtime - a.gtime, itv)
            && x.cpu == Percent(Wrap64(b.utime - a.utime + b.stime - a.stime), itv)
            && x.utime == Percent(if b.gtime == a.gtime then 0 else TWO64 - (b.gtime - a.gtime), itv)
  {
    RoundRowsAreOfSlots(s, r, x);
    SlotsAfterRead(s, r, k);
    RowTimes(SlotsIn(s, r, k), FrameOf(s, r));
  }

  lemma {:induction false} SlotsAfterRead(s: State, r: Input, k: int)
    requires |s.board| == BOARD_SIZE && ReadWell(r, k)
    ensures SlotsIn(s, r, k).Get(!s.curr) == TrackOf(s, k).Kept()
    ensures SameRead(SlotsIn(s, r, k).Get(s.curr), LastRead(r, k))
  {
    StepOne(s, r, k);
    ReadFillsSlot(Lookup(s.entries, k), s.curr, r, k);
  }

  /** No time has gone down. */
  predicate TimesRise(a: PidStats, b: PidStats) {
    a.utime <= b.utime && a.stime <= b.stime && a.gtime <= b.gtime
  }

  lemma {:induction false} NoDips(a: PidStats, b: PidStats)
    requires TimesRise(a, b)
    ensures UndoDips(b, a) == b
  {
  }

  lemma {:induction false} WrapNegative(g: u64)
    ensures Wrap64(0 - g) == if g == 0 then 0 else TWO64 - g
  {
  }

  lemma {:induction false} RowTimes(slots: Slots, f: Frame)
    requires TimesRise(slots.Get(!f.curr), slots.Get(f.curr))
    ensures var a, b, x := slots.Get(!f.curr), slots.Get(f.curr), RowOf(slots, f);
            && x.stime == Percent(b.stime - a.stime, f.itv) && x.gtime == Percent(b.gtime - a.gtime, f.itv)
            && x.cpu == Percent(Wrap64(b.utime - a.utime + b.stime - a.stime), f.itv)
            && x.utime == Percent(if b.gtime == a.gtime then 0 else TWO64 - (b.gtime - a.gtime), f.itv)
  {
    var a, b := slots.Get(!f.curr), slots.Get(f.curr);
    NoDips(a, b);
    var guest, user := Subcount64(b.gtime, a.gtime), Subcount64(b.utime, b.utime);
    assert guest == b.gtime - a.gtime && user == 0;
    WrapNegative(guest);
    assert RowOf(slots, f) == MakeRow(b, a, f.time, f.itv);
  }

  // ---------------------------------------------------- columns over a run

  /** The columns of a row that are differences of a counter of the process. */
  datatype Counter = Sent | Received | Misses | BytesRead | BytesWritten

  function Reading(c: Counter, p: PidStats): u64 {
    match c
    case Sent => p.netsnd
    case Received => p.netrcv
    case Misses => p.cpuAccesses
    case BytesRead => p.readBytes
    case BytesWritten => p.writeBytes
  }

  function ColumnOf(c: Counter, x: ProcessInfo): u64 {
    match c
    case Sent => x.netsnd
    case Received => x.netrcv
    case Misses => x.cpuAccesses
    case BytesRead => x.readBytes
    case BytesWritten => x.writeBytes
  }

  /** The column of cache misses is filled only while the counter reads above 0. */
  predicate Counts(c: Counter, p: PidStats) {
    c.Misses? ==> p.cpuAccesses > 0
  }

  function Moved(c: Counter, slots: Slots, curr: bool): u64 {
    Subcount64(Reading(c, slots.Get(curr)), Reading(c, slots.Get(!curr)))
  }

  /** What the row of these slots shows, and what no row shows. */
  function Shows(c: Counter, slots: Slots, curr: bool): u64 {
    if Active(slots, curr) && Counts(c, slots.Get(curr)) then Moved(c, slots, curr) else 0
  }

  function Loses(c: Counter, slots: Slots, curr: bool): u64 {
    if Active(slots, curr) && Counts(c, slots.Get(curr)) then 0 else Moved(c, slots, curr)
  }

  lemma {:induction false} RowShows(c: Counter, slots: Slots, f: Frame)
    requires Active(slots, f.curr)
    ensures ColumnOf(c, RowOf(slots, f)) == Shows(c, slots, f.curr)
  {
  }

  /** The rows of a round show what the slots of their processes say. */
  lemma {:induction false} RowsShowColumns(s: State, r: Input, c: Counter, x: ProcessInfo)
    requires Sound(s) && x in RoundRows(s, r)
    ensures ColumnOf(c, x) == Shows(c, SlotsIn(s, r, x.pid), s.curr)
  {
    RoundRowsAreOfSlots(s, r, x);
    RowShows(c, SlotsIn(s, r, x.pid), FrameOf(s, r));
  }

  /** What the rows of process `k` show over a run, added up, and what no row shows. */
  function ShownTotal(s: State, rs: seq<Input>, k: int, c: Counter): nat
    requires |s.board| == BOARD_SIZE
  {
    if rs == [] then 0
    else
      var n := |rs| - 1;
      var t := Run(s, rs[..n]);
      ShownTotal(s, rs[..n], k, c) + Shows(c, SlotsIn(t, rs[n], k), t.curr)
  }

  function LostTotal(s: State, rs: seq<Input>, k: int, c: Counter): nat
    requires |s.board| == BOARD_SIZE
  {
    if rs == [] then 0
    else
      var n := |rs| - 1;
      var t := Run(s, rs[..n]);
      LostTotal(s, rs[..n], k, c) + Loses(c, SlotsIn(t, rs[n], k), t.curr)
  }

  /** The readings that a run keeps of process `k`: before the first round and after each. */
  function KeptReadings(s: State, rs: seq<Input>, k: int, c: Counter): (r: seq<u64>)
    requires |s.board| == BOARD_SIZE
    ensures |r| == |rs| + 1
  {
    if rs == [] then [Reading(c, TrackOf(s, k).Kept())]
    else KeptReadings(s, rs[..|rs| - 1], k, c) + [Reading(c, TrackOf(Run(s, rs), k).Kept())]
  }

  lemma {:induction false} LastKept(s: State, rs: seq<Input>, k: int, c: Counter)
    requires |s.board| == BOARD_SIZE
    ensures Last(KeptReadings(s, rs, k, c)) == Reading(c, TrackOf(Run(s, rs), k).Kept())
  {
  }

  /** Settling leaves these counters alone. */
  lemma {:induction false} SettledReading(slots: Slots, curr: bool, c: Counter)
    ensures Reading(c, Settle(slots, curr).Get(curr)) == Reading(c, slots.Get(curr))
  {
  }

  lemma {:induction false} StepReadings(s: State, r: Input, k: int, c: Counter)
    requires |s.board| == BOARD_SIZE
    ensures Reading(c, TrackOf(Step(s, r), k).Kept()) == Reading(c, SlotsIn(s, r, k).Get(s.curr))
    ensures Reading(c, TrackOf(s, k).Kept()) == Reading(c, SlotsIn(s, r, k).Get(!s.curr))
  {
    StepOne(s, r, k);
    ProbeAllKeepsOther(Lookup(s.entries, k), s.curr, ProbesOf(r.listing, k));
    SettledReading(SlotsIn(s, r, k), s.curr, c);
  }

  lemma {:induction false} ShownAndLost(c: Counter, slots: Slots, curr: bool)
    ensures Shows(c, slots, curr) + Loses(c, slots, curr) ==
            Subcount64(Reading(c, slots.Get(curr)), Reading(c, slots.Get(!curr)))
  {
  }

  lemma {:induction false} DeltasSnoc(xs: seq<u64>, x: u64)
    requires xs != []
    ensures Deltas64(xs + [x]) == Deltas64(xs) + Subcount64(x, Last(xs))
  {
    assert (xs + [x])[..|xs|] == xs;
  }

  /** On every run, shown and lost together are the wrapping differences of the readings kept. */
  lemma {:induction false} ShownPlusLost(s: State, rs: seq<Input>, k: int, c: Counter)
    requires |s.board| == BOARD_SIZE
    ensures ShownTotal(s, rs, k, c) + LostTotal(s, rs, k, c) == Deltas64(KeptReadings(s, rs, k, c))
  {
    if rs != [] {
      var n := |rs| - 1;
      var t := Run(s, rs[..n]);
      ShownPlusLost(s, rs[..n], k, c);
      LastKept(s, rs[..n], k, c);
      StepReadings(t, rs[n], k, c);
      ShownAndLost(c, SlotsIn(t, rs[n], k), t.curr);
      DeltasSnoc(KeptReadings(s, rs[..n], k, c), Reading(c, TrackOf(Run(s, rs), k).Kept()));
    }
  }

  /**
   Shown and lost together add up to the readings; if none fell, what is shown is all exactly if
   nothing was lost.
   */
  ghost predicate ShowsAllBut(shown: nat, lost: nat, read: seq<u64>)
    requires read != []
  {
    && AddsUp(shown + lost, read)
    && (Falls(read, 0) == 0 ==> (shown == Last(read) - read[0] <==> lost == 0))
  }

  lemma {:induction false} DifferencesAddUp(shown: nat, lost: nat, read: seq<u64>)
    requires read != [] && shown + lost == Deltas64(read)
    ensures ShowsAllBut(shown, lost, read)
  {
    Subcount64Telescopes(read);
  }

  /** Over any run the rows of a process show the readings kept of it, less what no row shows. */
  lemma {:induction false} ProcessColumnsTelescope(s: State, rs: seq<Input>, k: int, c: Counter)
    requires |s.board| == BOARD_SIZE
    ensures ShowsAllBut(ShownTotal(s, rs, k, c), LostTotal(s, rs, k, c), KeptReadings(s, rs, k, c))
  {
    ShownPlusLost(s, rs, k, c);
    DifferencesAddUp(ShownTotal(s, rs, k, c), LostTotal(s, rs, k, c), KeptReadings(s, rs, k, c));
  }

  /** Over any run in which a new process was read well in every round, those are what was read. */
  lemma {:induction false} RawColumnsTelescope(s: State, rs: seq<Input>, k: int, c: Counter)
    requires |s.board| == BOARD_SIZE && k > 0 && Lookup(s.entries, k).slots == ZERO_SLOTS && AlwaysReadWell(rs, k)
    requires !c.Misses?
    ensures ShowsAllBut(ShownTotal(s, rs, k, c), LostTotal(s, rs, k, c), RawReadings(rs, k, c))
    ensures c.BytesRead? || c.BytesWritten? ==> LostTotal(s, rs, k, c) == 0
  {
    ProcessColumnsTelescope(s, rs, k, c);
    KeptIsRaw(s, rs, k, c);
    if c.BytesRead? || c.BytesWritten? {
      BytesNotLost(s, rs, k, c);
    }
  }

  // ------------------------------------------------------- what is lost

  /** Only in a round without a row, or while the counter reads 0, and only if it moved. */
  lemma {:induction false} NothingLostIff(c: Counter, slots: Slots, curr: bool)
    ensures var a, b := Reading(c, slots.Get(!curr)), Reading(c, slots.Get(curr));
            Loses(c, slots, curr) == 0 <==>
            (Active(slots, curr) && Counts(c, slots.Get(curr))) || a == b || a - b == MAXU64VAL
  {
    ZeroDifferenceIff(Reading(c, slots.Get(curr)), Reading(c, slots.Get(!curr)));
  }

  /** A counter that moved has a difference, unless it fell by exactly the wrap constant. */
  lemma {:induction false} ZeroDifferenceIff(newval: u64, oldval: u64)
    ensures Subcount64(newval, oldval) == 0 <==> newval == oldval || oldval - newval == MAXU64VAL
  {
    if newval < oldval {
      var d := MAXU64VAL - oldval + newval;
      assert Wrap64(d) == if d >= 0 then d else d + TWO64;
    }
  }

  /** Of a process read well in every round no bytes are lost: an idle one has none. */
  lemma {:induction false} BytesNotLost(s: State, rs: seq<Input>, k: int, c: Counter)
    requires |s.board| == BOARD_SIZE && k > 0 && AlwaysReadWell(rs, k) && (c.BytesRead? || c.BytesWritten?)
    ensures LostTotal(s, rs, k, c) == 0
  {
    if rs != [] {
      var n := |rs| - 1;
      var t := Run(s, rs[..n]);
      BytesNotLost(s, rs[..n], k, c);
      StepOne(t, rs[n], k);
      ReadFillsSlot(Lookup(t.entries, k), t.curr, rs[n], k);
      IdleBytes(SlotsIn(t, rs[n], k), t.curr, c);
    }
  }

  lemma {:induction false} IdleBytes(slots: Slots, curr: bool, c: Counter)
    requires slots.Get(curr).pid > 0 && (c.BytesRead? || c.BytesWritten?)
    ensures Loses(c, slots, curr) == 0
  {
    IsActiveIff(slots.Get(!curr), slots.Get(curr));
  }

  // ----------------------------------------------------- what was read

  /** What the last read of a process in a round gave of a counter that is read from /proc. */
  function RawReadings(rs: seq<Input>, k: int, c: Counter): (r: seq<u64>)
    requires AlwaysReadWell(rs, k)
    ensures |r| == |rs| + 1
  {
    [0] + seq(|rs|, i requires 0 <= i < |rs| => Reading(c, LastRead(rs[i], k)))
  }

  lemma {:induction false} RawSnoc(rs: seq<Input>, n: nat, k: int, c: Counter)
    requires |rs| == n + 1 && AlwaysReadWell(rs, k)
    ensures AlwaysReadWell(rs[..n], k)
    ensures RawReadings(rs, k, c) == RawReadings(rs[..n], k, c) + [Reading(c, LastRead(rs[n], k))]
  {
  }

  lemma {:induction false} KeptIsRead(s: State, r: Input, k: int, c: Counter)
    requires |s.board| == BOARD_SIZE && ReadWell(r, k) && !c.Misses?
    ensures Reading(c, TrackOf(Step(s, r), k).Kept()) == Reading(c, LastRead(r, k))
  {
    StepReadings(s, r, k, c);
    StepOne(s, r, k);
    ReadFillsSlot(Lookup(s.entries, k), s.curr, r, k);
  }

  /** Read well in every round, a new process is kept with what was read; cache misses are apart. */
  lemma {:induction false} KeptIsRaw(s: State, rs: seq<Input>, k: int, c: Counter)
    requires |s.board| == BOARD_SIZE && Lookup(s.entries, k).slots == ZERO_SLOTS && AlwaysReadWell(rs, k)
    requires !c.Misses?
    ensures KeptReadings(s, rs, k, c) == RawReadings(rs, k, c)
  {
    if rs != [] {
      var n := |rs| - 1;
      RawSnoc(rs, n, k, c);
      KeptIsRaw(s, rs[..n], k, c);
      KeptIsRead(Run(s, rs[..n]), rs[n], k, c);
    }
  }

  /** The cache misses kept are the count of the last read if the process has a counter then, and else 0. */
  lemma {:induction false} MissesKept(s: State, r: Input, k: int)
    requires |s.board| == BOARD_SIZE && ReadWell(r, k)
    ensures var ps := ProbesOf(r.listing, k);
            Reading(Misses, TrackOf(Step(s, r), k).Kept()) ==
            if Lookup(Scanned(s, r).entries, k).counting then ps[|ps| - 1].count else 0
  {
    StepReadings(s, r, k, Misses);
    StepOne(s, r, k);
  }

  // --------------------------------------------------------- guest time

  /**
   The guest time that a good read leaves: the larger of the two exactly if it has not gone
   down, or the process was otherwise active and it went down by less than 100.
   */
  lemma {:induction false} GuestTimeKeptIff(s: State, r: Input, k: int)
    requires |s.board| == BOARD_SIZE && k > 0 && ReadWell(r, k)
    ensures var was, read, kept := TrackOf(s, k).Kept(), LastRead(r, k), TrackOf(Step(s, r), k).Kept();
            && (kept.gtime == was.gtime || kept.gtime == read.gtime)
            && (kept.gtime == Max(was.gtime, read.gtime) <==>
                read.gtime >= was.gtime || (IsActive(was, read) == 1 && was.gtime - read.gtime < 100))
  {
    StepOne(s, r, k);
    ReadFillsSlot(Lookup(s.entries, k), s.curr, r, k);
    var slots := SlotsIn(s, r, k);
    assert slots.Get(!s.curr) == TrackOf(s, k).Kept();
    IsActiveIff(slots.Get(!s.curr), slots.Get(s.curr));
    IsActiveIff(slots.Get(!s.curr), LastRead(r, k));
  }

  // ------------------------------------------------------ offered records

  lemma {:induction false} OfferedRows(rows: seq<ProcessInfo>, screen: bool, x: ProcessInfo)
    ensures x in ShownOf(rows, screen) <==> screen && x in rows && Shown(x)
  {
    if rows != [] {
      OfferedRows(rows[1..], screen, x);
      assert rows == [rows[0]] + rows[1..];
    }
  }

  /** A difference of the network counters, or of cache misses while their counter reads above 0. */
  predicate Traffic(slots: Slots, curr: bool) {
    var a, b := slots.Get(!curr), slots.Get(curr);
    || (a.netsnd != b.netsnd && a.netsnd - b.netsnd != MAXU64VAL)
    || (a.netrcv != b.netrcv && a.netrcv - b.netrcv != MAXU64VAL)
    || (b.cpuAccesses > 0 && a.cpuAccesses != b.cpuAccesses && a.cpuAccesses - b.cpuAccesses != MAXU64VAL)
  }

  lemma {:induction false} ShownIff(slots: Slots, f: Frame)
    requires Active(slots, f.curr)
    ensures Shown(RowOf(slots, f)) <==> TicksOf(slots, f.curr) > 0 || Traffic(slots, f.curr)
  {
    PercentPositive(TicksOf(slots, f.curr), f.itv);
    RowShows(Sent, slots, f);
    RowShows(Received, slots, f);
    RowShows(Misses, slots, f);
    var a, b := slots.Get(!f.curr), slots.Get(f.curr);
    ZeroDifferenceIff(b.netsnd, a.netsnd);
    ZeroDifferenceIff(b.netrcv, a.netrcv);
    ZeroDifferenceIff(b.cpuAccesses, a.cpuAccesses);
  }

  /**
   A process is offered to the ranked list exactly if the screen is on, it was active, and it
   has used processor time, or its network counters moved, or its cache misses did while their
   counter reads above 0.
   */
  lemma {:induction false} OfferedIff(s: State, r: Input, k: int)
    requires Sound(s)
    ensures k in PidsOf(RoundRecords(s, r)) <==>
            && r.screen && Active(SlotsIn(s, r, k), s.curr)
            && (Emitted(s, r, k) > 0 || Traffic(SlotsIn(s, r, k), s.curr))
  {
    var rows, recs, slots := RoundRows(s, r), RoundRecords(s, r), SlotsIn(s, r, k);
    var x := RowOf(slots, FrameOf(s, r));
    if Active(slots, s.curr) {
      RowOfActive(s, r, k);
      ShownIff(slots, FrameOf(s, r));
      OfferedRows(rows, r.screen, x);
      if x in recs {
        var i :| 0 <= i < |recs| && recs[i] == x;
        assert PidsOf(recs)[i] == k;
      }
    }
    if k in PidsOf(recs) {
      var i :| 0 <= i < |recs| && recs[i].pid == k;
      OfferedRows(rows, r.screen, recs[i]);
      RoundRowsAreOfSlots(s, r, recs[i]);
    }
  }

  lemma {:induction false} RowOfActive(s: State, r: Input, k: int)
    requires Sound(s) && Active(SlotsIn(s, r, k), s.curr)
    ensures RowOf(SlotsIn(s, r, k), FrameOf(s, r)) in RoundRows(s, r)
    ensures RowOf(SlotsIn(s, r, k), FrameOf(s, r)).pid == k
  {
    var s1 := Scanned(s, r);
    ScannedSound(s, r);
    PreOrderListsKeysOnce(s1.tree);
    RowIsThere(PreOrder(s1.tree), s1.entries, FrameOf(s, r), k);
  }

  /** With the screen off none is; and the system row counts the records, less one. */
  lemma {:induction false} ActiveNumber(s: State, r: Input)
    requires |s.board| == BOARD_SIZE
    ensures SystemRow(s, r).activeProcessNum == |RoundRecords(s, r)| - 1
    ensures !r.screen ==> RoundRecords(s, r) == [] && SystemRow(s, r).activeProcessNum == -1
  {
    RoundOffers(s, r);
    if !r.screen {
      NoneOffered(RoundRows(s, r));
    }
  }

  lemma {:induction false} NoneOffered(rows: seq<ProcessInfo>)
    ensures ShownOf(rows, false) == []
  {
    if rows != [] {
      NoneOffered(rows[1..]);
    }
  }
}
