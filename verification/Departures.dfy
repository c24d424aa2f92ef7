/**
 What becomes of a process that has gone. Its node is never deleted, so its two last samples
 stay, and the write pass goes on comparing them.
 */
module Departures {
  import opened Samples
  import opened Tables
  import opened Ranking
  import opened Counters
  import opened AvlShape
  import opened Rounds
  import opened Outputs
  import opened Histories
  import opened Accounting

  // ------------------------------------------------------- frozen samples

  /** No round lists the process any more. */
  ghost predicate Absent(rs: seq<Input>, k: int) {
    forall i :: 0 <= i < |rs| ==> ProbesOf(rs[i].listing, k) == []
  }

  /** Settling the slots, whichever is current, changes nothing. */
  predicate Frozen(s: Slots) {
    Settle(s, false) == s && Settle(s, true) == s
  }

  /** A round without the process only settles its samples. */
  lemma {:induction false} AbsentStep(t: Track, r: Input, k: int)
    requires ProbesOf(r.listing, k) == []
    ensures TrackStep(t, r, k).entry.slots == Settle(t.entry.slots, t.curr) && TrackStep(t, r, k).curr == !t.curr
  {
  }

  /** Two rounds after a process has left the listing, its samples are frozen. */
  lemma {:induction false} AbsentFreezes(t: Track, r1: Input, r2: Input, k: int)
    requires Absent([r1, r2], k)
    ensures Frozen(TrackStep(TrackStep(t, r1, k), r2, k).entry.slots)
  {
    assert ProbesOf([r1, r2][0].listing, k) == [] && ProbesOf([r1, r2][1].listing, k) == [];
    AbsentStep(t, r1, k);
    AbsentStep(TrackStep(t, r1, k), r2, k);
    SettleTwiceFreezes(t.entry.slots, t.curr);
  }

  lemma {:induction false} SettleTwiceFreezes(s: Slots, curr: bool)
    ensures Frozen(Settle(Settle(s, curr), !curr))
  {
    var a := Settle(s, curr);
    var b := Settle(a, !curr);
    assert Settle(b, !curr) == b;
    assert Settle(b, curr) == b;
  }

  /** The slots that are current `n` rounds on. */
  function After(curr: bool, n: nat): bool {
    if n % 2 == 0 then curr else !curr
  }

  lemma {:induction false} SettleFrozen(s: Slots, curr: bool)
    requires Frozen(s)
    ensures Settle(s, curr) == s
  {
  }

  /** Once frozen, the samples of an absent process stay, and the slots take turns. */
  lemma {:induction false} FrozenTrack(t: Track, rs: seq<Input>, k: int)
    requires Frozen(t.entry.slots) && Absent(rs, k)
    ensures TrackRun(t, rs, k).entry.slots == t.entry.slots
    ensures TrackRun(t, rs, k).curr == After(t.curr, |rs|)
  {
    if rs != [] {
      var n := |rs| - 1;
      FrozenTrack(t, rs[..n], k);
      AbsentStep(TrackRun(t, rs[..n], k), rs[n], k);
      SettleFrozen(t.entry.slots, After(t.curr, n));
    }
  }

  // ------------------------------------------------------------------ the rows

  /** The two samples differ in something that `is_active` looks at. */
  predicate Differ(s: Slots) {
    !SameActivity(s.first, s.second)
  }

  lemma {:induction false} ActiveIffDiffer(s: Slots, curr: bool)
    ensures Active(s, curr) <==> s.Get(curr).pid > 0 && Differ(s)
  {
    IsActiveIff(s.Get(!curr), s.Get(curr));
  }

  /** The round writes a row for process `k`. */
  ghost predicate Emits(s: State, r: Input, k: int) {
    k in PidsOf(RoundRows(s, r))
  }

  lemma {:induction false} EmitsIffActive(s: State, r: Input, k: int)
    requires Sound(s)
    ensures Emits(s, r, k) <==> Active(Lookup(Scanned(s, r).entries, k).slots, s.curr)
  {
    OneRowPerActiveProcess(s, r);
  }

  /** Round `i` of a run from `s` writes a row for process `k`. */
  ghost predicate EmitsIn(s: State, rs: seq<Input>, i: nat, k: int)
    requires |s.board| == BOARD_SIZE && i < |rs|
  {
    Emits(Run(s, rs[..i]), rs[i], k)
  }

  /** In every round, the row of a frozen process depends on its current slot alone. */
  lemma {:induction false} FrozenEmission(s: State, rs: seq<Input>, i: nat, k: int)
    requires Sound(s) && Absent(rs, k) && i < |rs|
    requires Frozen(Lookup(s.entries, k).slots)
    ensures var slots, curr := Lookup(s.entries, k).slots, After(s.curr, i);
            && (EmitsIn(s, rs, i, k) <==> Differ(slots) && slots.Get(curr).pid > 0)
            && Emitted(Run(s, rs[..i]), rs[i], k) == TicksOf(slots, curr)
  {
    var u := Run(s, rs[..i]);
    RunSound(s, rs[..i]);
    TrackOfRun(s, rs[..i], k);
    FrozenTrack(TrackOf(s, k), rs[..i], k);
    assert ProbesOf(rs[i].listing, k) == [];
    StepOne(u, rs[i], k);
    EmitsIffActive(u, rs[i], k);
    ActiveIffDiffer(Lookup(s.entries, k).slots, After(s.curr, i));
  }

  /** Which rounds of a run write a row for process `k`. */
  ghost function Emissions(s: State, rs: seq<Input>, k: int): seq<bool>
    requires |s.board| == BOARD_SIZE
  {
    seq(|rs|, i requires 0 <= i < |rs| => EmitsIn(s, rs, i, k))
  }

  ghost predicate Always(e: seq<bool>) {
    forall i :: 0 <= i < |e| ==> e[i]
  }

  ghost predicate Never(e: seq<bool>) {
    forall i :: 0 <= i < |e| ==> !e[i]
  }

  ghost predicate EverySecond(e: seq<bool>) {
    forall i, j :: 0 <= i < |e| && 0 <= j < |e| && j == i + 1 ==> e[i] != e[j]
  }

  ghost predicate TakesTurns(e: seq<bool>, even: bool, odd: bool) {
    forall i :: 0 <= i < |e| ==> e[i] == if i % 2 == 0 then even else odd
  }

  lemma {:induction false} TurnsClassified(e: seq<bool>, even: bool, odd: bool)
    requires |e| >= 2 && TakesTurns(e, even, odd)
    ensures Always(e) <==> even && odd
    ensures EverySecond(e) <==> even != odd
    ensures Never(e) <==> !even && !odd
  {
    assert e[0] == even && e[1] == odd;
  }

  /** The samples give the process a row while this slot is current: they differ, and it is of a live process. */
  predicate LeavesRows(s: Slots, curr: bool) {
    Differ(s) && s.Get(curr).pid > 0
  }

  /**
   A process that has gone, its samples frozen, gets a row in every later round exactly if
   its samples differ and both are of a live process, in every second round exactly if they
   differ and one of them is, and in no round otherwise.
   */
  lemma {:induction false} GoneProcessEmits(s: State, rs: seq<Input>, k: int)
    requires Sound(s) && Absent(rs, k) && |rs| >= 2
    requires Frozen(Lookup(s.entries, k).slots)
    ensures var slots, e := Lookup(s.entries, k).slots, Emissions(s, rs, k);
            var first, second := slots.first.pid > 0, slots.second.pid > 0;
            && (Always(e) <==> Differ(slots) && first && second)
            && (EverySecond(e) <==> Differ(slots) && first != second)
            && (Never(e) <==> !Differ(slots) || (!first && !second))
  {
    var slots, e := Lookup(s.entries, k).slots, Emissions(s, rs, k);
    FrozenTurns(s, rs, k);
    TurnsClassified(e, LeavesRows(slots, s.curr), LeavesRows(slots, !s.curr));
  }

  lemma {:induction false} FrozenTurns(s: State, rs: seq<Input>, k: int)
    requires Sound(s) && Absent(rs, k) && Frozen(Lookup(s.entries, k).slots)
    ensures var slots := Lookup(s.entries, k).slots;
            TakesTurns(Emissions(s, rs, k), LeavesRows(slots, s.curr), LeavesRows(slots, !s.curr))
  {
    forall i | 0 <= i < |rs|
      ensures Emissions(s, rs, k)[i] == LeavesRows(Lookup(s.entries, k).slots, After(s.curr, i))
    {
      FrozenEmission(s, rs, i, k);
    }
  }

  // ------------------------------------------------- how a process goes

  /** The process is in the listing, but the last read of it failed. */
  predicate ReadBadly(r: Input, k: int) {
    var ps := ProbesOf(r.listing, k);
    ps != [] && !ps[|ps| - 1].alive
  }

  /** A failed read leaves what was read before it failed, without the pid, and the counter as it was. */
  lemma {:induction false} FailureClearsPid(e: Entry, curr: bool, r: Input, k: int)
    requires ReadBadly(r, k)
    ensures var s, ps := ProbeAll(e, curr, ProbesOf(r.listing, k)).slots, ProbesOf(r.listing, k);
            && s.Get(curr) == ps[|ps| - 1].sample.(pid := 0)
            && s.Get(!curr) == e.slots.Get(!curr)
  {
    ProbeAllKeepsOther(e, curr, ProbesOf(r.listing, k));
  }

  lemma {:induction false} SettleKeepsPids(s: Slots, curr: bool)
    ensures Settle(s, curr).first.pid == s.first.pid && Settle(s, curr).second.pid == s.second.pid
  {
  }

  /** A round without the process leaves the pids of its samples alone. */
  lemma {:induction false} AbsentKeepsPids(t: Track, r: Input, k: int)
    requires ProbesOf(r.listing, k) == []
    ensures TrackStep(t, r, k).entry.slots.first.pid == t.entry.slots.first.pid
    ensures TrackStep(t, r, k).entry.slots.second.pid == t.entry.slots.second.pid
  {
    AbsentStep(t, r, k);
    SettleKeepsPids(t.entry.slots, t.curr);
  }

  /** The pids after a good read and then a second read, good or bad. */
  lemma {:induction false} PidsAfterTwoReads(t: Track, r1: Input, r2: Input, k: int)
    requires k > 0 && ReadWell(r1, k) && (ReadWell(r2, k) || ReadBadly(r2, k))
    ensures var s := TrackStep(TrackStep(t, r1, k), r2, k).entry.slots;
            s.Get(t.curr).pid == k && s.Get(!t.curr).pid == if ReadWell(r2, k) then k else 0
  {
    var t1 := TrackStep(t, r1, k);
    ReadFillsSlot(t.entry, t.curr, r1, k);
    SettleKeepsPids(ProbeAll(t.entry, t.curr, ProbesOf(r1.listing, k)).slots, t.curr);
    if ReadWell(r2, k) {
      ReadFillsSlot(t1.entry, t1.curr, r2, k);
    } else {
      FailureClearsPid(t1.entry, t1.curr, r2, k);
    }
    SettleKeepsPids(ProbeAll(t1.entry, t1.curr, ProbesOf(r2.listing, k)).slots, t1.curr);
  }

  lemma {:induction false} TrackOfStep(s: State, r: Input, k: int)
    requires |s.board| == BOARD_SIZE
    ensures TrackOf(Step(s, r), k) == TrackStep(TrackOf(s, k), r, k)
  {
    StepOne(s, r, k);
  }

  /** The state after two reads of a process and two rounds without it. */
  function Left(s: State, r1: Input, r2: Input, r3: Input, r4: Input): State
    requires |s.board| == BOARD_SIZE
  {
    Step(Step(Step(Step(s, r1), r2), r3), r4)
  }

  lemma {:induction false} TrackOfLeft(s: State, r1: Input, r2: Input, r3: Input, r4: Input, k: int)
    requires Sound(s)
    ensures Sound(Left(s, r1, r2, r3, r4))
    ensures TrackOf(Left(s, r1, r2, r3, r4), k) ==
            TrackStep(TrackStep(TrackStep(TrackStep(TrackOf(s, k), r1, k), r2, k), r3, k), r4, k)
  {
    var s1 := Step(s, r1);
    var s2 := Step(s1, r2);
    var s3 := Step(s2, r3);
    StepSound(s, r1);
    StepSound(s1, r2);
    StepSound(s2, r3);
    StepSound(s3, r4);
    TrackOfStep(s, r1, k);
    TrackOfStep(s1, r2, k);
    TrackOfStep(s2, r3, k);
    TrackOfStep(s3, r4, k);
  }

  /**
   A process that exits between two reads leaves two live samples, one that exits during a
   read leaves one: the first gets a row in every later round or in none, the second in every
   second round or in none, and none only if what is left of the samples does not differ.
   */
  lemma {:induction false} ExitedProcessEmits(s: State, r1: Input, r2: Input, r3: Input, r4: Input,
                                              rs: seq<Input>, k: int)
    requires Sound(s) && k > 0 && ReadWell(r1, k) && (ReadWell(r2, k) || ReadBadly(r2, k))
    requires Absent([r3, r4], k) && Absent(rs, k) && |rs| >= 2
    ensures var left := Left(s, r1, r2, r3, r4);
            var e := Emissions(left, rs, k);
            && (!Differ(Lookup(left.entries, k).slots) ==> Never(e))
            && (Differ(Lookup(left.entries, k).slots) ==> if ReadWell(r2, k) then Always(e) else EverySecond(e))
  {
    TrackOfLeft(s, r1, r2, r3, r4, k);
    LeavingPids(TrackOf(s, k), r1, r2, r3, r4, k);
    GoneProcessEmits(Left(s, r1, r2, r3, r4), rs, k);
  }

  lemma {:induction false} LeavingPids(t: Track, r1: Input, r2: Input, r3: Input, r4: Input, k: int)
    requires k > 0 && ReadWell(r1, k) && (ReadWell(r2, k) || ReadBadly(r2, k)) && Absent([r3, r4], k)
    ensures var s := TrackStep(TrackStep(TrackStep(TrackStep(t, r1, k), r2, k), r3, k), r4, k).entry.slots;
            Frozen(s) && s.Get(t.curr).pid == k && s.Get(!t.curr).pid == if ReadWell(r2, k) then k else 0
  {
    var t2 := TrackStep(TrackStep(t, r1, k), r2, k);
    assert ProbesOf([r3, r4][0].listing, k) == [] && ProbesOf([r3, r4][1].listing, k) == [];
    PidsAfterTwoReads(t, r1, r2, k);
    AbsentKeepsPids(t2, r3, k);
    AbsentKeepsPids(TrackStep(t2, r3, k), r4, k);
    AbsentFreezes(t2, r3, r4, k);
  }

  // ------------------------------------------- a row in every second round

  /** Process 7 is read for the first time, having run for 5 ticks. */
  predicate FirstRead(r: Input) {
    r.listing == [Probe(7, true, ZERO_STATS.(utime := 5), false, 0)]
  }

  /** It dies while it is being read for the second time. */
  predicate FailedRead(r: Input) {
    r.listing == [Probe(7, false, ZERO_STATS, false, 0)]
  }

  lemma {:induction false} OneProbe(listing: seq<Probe>, k: int)
    requires |listing| == 1 && listing[0].pid == k
    ensures ProbesOf(listing, k) == listing
  {
    assert listing[..0] == [] && ProbesOf([], k) == [];
  }

  lemma {:induction false} OneProbeEntry(e: Entry, curr: bool, ps: seq<Probe>)
    requires |ps| == 1
    ensures ProbeAll(e, curr, ps) == ProbeEntry(e, curr, ps[0])
  {
    assert ps[..0] == [] && ProbeAll(e, curr, []) == e;
  }

  /** Frozen samples with only the second one live, which is `ticks` ahead. */
  predicate OneLive(s: Slots, ticks: nat) {
    Frozen(s) && Differ(s) && s.first.pid == 0 && s.second.pid > 0 && TicksOf(s, true) == ticks
  }

  lemma {:induction false} BriefTrack(t: Track, r1: Input, r2: Input)
    requires FirstRead(r1) && FailedRead(r2) && t.entry == NEW_ENTRY && t.curr
    ensures var u := TrackStep(TrackStep(t, r1, 7), r2, 7); u.curr && OneLive(u.entry.slots, 5)
  {
    OneProbe(r1.listing, 7);
    OneProbe(r2.listing, 7);
    OneProbeEntry(t.entry, t.curr, r1.listing);
    var t1 := TrackStep(t, r1, 7);
    assert t1.entry.slots == Slots(ZERO_STATS, ZERO_STATS.(pid := 7, utime := 5)) && !t1.curr;
    OneProbeEntry(t1.entry, t1.curr, r2.listing);
    var t2 := TrackStep(t1, r2, 7);
    assert t2.entry.slots == Slots(ZERO_STATS, ZERO_STATS.(pid := 7, utime := 5));
  }

  lemma {:induction false} BriefState(board: seq<ProcessInfo>, r1: Input, r2: Input)
    requires |board| == BOARD_SIZE && FirstRead(r1) && FailedRead(r2)
    ensures var s := Step(Step(Initial(board), r1), r2);
            Sound(s) && s.curr && OneLive(Lookup(s.entries, 7).slots, 5)
  {
    var s0 := Initial(board);
    var s1 := Step(s0, r1);
    InitialSound(board);
    StepSound(s0, r1);
    StepSound(s1, r2);
    TrackOfStep(s0, r1, 7);
    TrackOfStep(s1, r2, 7);
    BriefTrack(TrackOf(s0, 7), r1, r2);
  }

  /** Every row that these rounds write for process `k` is of so many ticks. */
  ghost predicate AllRowsOf(s: State, rs: seq<Input>, k: int, ticks: nat)
    requires |s.board| == BOARD_SIZE
  {
    forall i :: 0 <= i < |rs| && EmitsIn(s, rs, i, k) ==> Emitted(Run(s, rs[..i]), rs[i], k) == ticks
  }

  lemma {:induction false} OneLiveTurns(s: State, rs: seq<Input>, k: int, ticks: nat)
    requires Sound(s) && s.curr && OneLive(Lookup(s.entries, k).slots, ticks) && Absent(rs, k)
    ensures TakesTurns(Emissions(s, rs, k), true, false)
  {
    FrozenTurns(s, rs, k);
  }

  lemma {:induction false} OneLiveTicks(s: State, rs: seq<Input>, k: int, ticks: nat)
    requires Sound(s) && OneLive(Lookup(s.entries, k).slots, ticks) && Absent(rs, k)
    ensures AllRowsOf(s, rs, k, ticks)
  {
    forall i | 0 <= i < |rs| && EmitsIn(s, rs, i, k)
      ensures Emitted(Run(s, rs[..i]), rs[i], k) == ticks
    {
      FrozenEmission(s, rs, i, k);
    }
  }

  /** For ever after, it gets a row of all its 5 ticks in every second round. */
  lemma {:induction false} BriefLifeLongRows(board: seq<ProcessInfo>, r1: Input, r2: Input, rs: seq<Input>)
    requires |board| == BOARD_SIZE && FirstRead(r1) && FailedRead(r2) && Absent(rs, 7)
    ensures var s := Step(Step(Initial(board), r1), r2);
            TakesTurns(Emissions(s, rs, 7), true, false) && AllRowsOf(s, rs, 7, 5)
  {
    BriefState(board, r1, r2);
    OneLiveTurns(Step(Step(Initial(board), r1), r2), rs, 7, 5);
    OneLiveTicks(Step(Step(Initial(board), r1), r2), rs, 7, 5);
  }

  // --------------------------------------------------- bytes of stale samples

  /** The byte counters of process `k` are in order in this round, if it is active. */
  ghost predicate EntryOk(s: State, r: Input, k: int) {
    var slots := Lookup(Scanned(s, r).entries, k).slots;
    Active(slots, s.curr) ==> BytesInOrder(slots, s.curr)
  }

  lemma {:induction false} BytesOkIff(s: State, r: Input)
    requires Sound(s)
    ensures BytesOk(s, r) <==>
            |RoundRows(s, r)| < TWO32 && forall k :: k in Scanned(s, r).entries ==> EntryOk(s, r, k)
  {
    ScannedSound(s, r);
    PreOrderListsKeysOnce(Scanned(s, r).tree);
  }

  /** A process read well in this round and the last is in order exactly if the raw counters are. */
  lemma {:induction false} TwoReadsInOrderIff(s: State, r1: Input, r2: Input, k: int)
    requires |s.board| == BOARD_SIZE && k > 0 && ReadWell(r1, k) && ReadWell(r2, k)
    ensures var s1 := Step(s, r1);
            BytesInOrder(Lookup(Scanned(s1, r2).entries, k).slots, s1.curr)
            <==> BytesInOrder(Slots(LastRead(r1, k), LastRead(r2, k)), true)
  {
    SlotsAtWrite(s, r1, r2, k);
  }

  predicate SameBytes(s: Slots) {
    && s.first.readBytes == s.second.readBytes
    && s.first.writeBytes == s.second.writeBytes
    && s.first.cancelledWriteBytes == s.second.cancelledWriteBytes
  }

  lemma {:induction false} BothWaysInOrderIff(s: Slots)
    ensures BytesInOrder(s, true) && BytesInOrder(s, false) <==> SameBytes(s)
  {
  }

  /**
   The samples of a process that has gone are compared both ways round in two rounds: with two
   live samples they are in order in both exactly if the process did no input or output between
   them, with one exactly if they are in order that way round.
   */
  lemma {:induction false} StaleEntryOkIff(s: State, r1: Input, r2: Input, k: int)
    requires Sound(s) && Absent([r1, r2], k) && Frozen(Lookup(s.entries, k).slots)
    ensures var slots := Lookup(s.entries, k).slots;
            EntryOk(s, r1, k) && EntryOk(Step(s, r1), r2, k) <==>
            (Differ(slots) ==>
               if slots.first.pid > 0 && slots.second.pid > 0 then SameBytes(slots)
               else if slots.first.pid > 0 then BytesInOrder(slots, false)
               else slots.second.pid > 0 ==> BytesInOrder(slots, true))
  {
    var slots := Lookup(s.entries, k).slots;
    assert ProbesOf([r1, r2][0].listing, k) == [] && ProbesOf([r1, r2][1].listing, k) == [];
    StepOne(s, r1, k);
    StepOne(Step(s, r1), r2, k);
    ActiveIffDiffer(slots, true);
    ActiveIffDiffer(slots, false);
    BothWaysInOrderIff(slots);
  }

  /**
   So a process that did input or output in its last interval and then exited keeps the byte
   counters from being in order in any window of two rounds, for as long as the program runs.
   */
  lemma {:induction false} StaleBytesBreakWindow(board: seq<ProcessInfo>, rs: seq<Input>, i: nat, k: int,
                                                 length: int, now: int)
    requires |board| == BOARD_SIZE && i + 1 < |rs|
    requires InWindow(rs[i].ctime, length, now) && InWindow(rs[i + 1].ctime, length, now)
    requires Absent([rs[i], rs[i + 1]], k)
    requires var slots := Lookup(Before(board, rs, i).entries, k).slots;
             Frozen(slots) && slots.first.pid > 0 && slots.second.pid > 0 && !SameBytes(slots)
    ensures !BytesOkInWindow(board, rs, length, now)
  {
    var s := Before(board, rs, i);
    InitialSound(board);
    RunSound(Initial(board), rs[..i]);
    RunSound(Initial(board), rs[..i + 1]);
    RunNext(Initial(board), rs, i);
    StaleEntryOkIff(s, rs[i], rs[i + 1], k);
    if BytesOkInWindow(board, rs, length, now) {
      BytesOkMeansEntryOk(s, rs[i], k);
      BytesOkMeansEntryOk(Before(board, rs, i + 1), rs[i + 1], k);
    }
  }

  lemma {:induction false} BytesOkMeansEntryOk(s: State, r: Input, k: int)
    requires Sound(s) && BytesOk(s, r)
    ensures EntryOk(s, r, k)
  {
    BytesOkIff(s, r);
  }
}
