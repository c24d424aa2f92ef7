/**
 What runs of rounds mean for one process: which samples its slots hold when the rows are
 written, and what the tick counts it emits add up to.
 */
module Histories {
  import opened Arithmetic
  import opened Counters
  import opened Samples
  import opened Ranking
  import opened AvlShape
  import opened Floats
  import opened Rounds
  import opened Outputs

  // ------------------------------------------------ one process at a time

  /** The entries of a listing that are about process `k`. */
  function ProbesOf(listing: seq<Probe>, k: int): seq<Probe> {
    if listing == [] then []
    else
      var p := listing[|listing| - 1];
      ProbesOf(listing[..|listing| - 1], k) + (if p.pid == k then [p] else [])
  }

  function ProbeAll(e: Entry, curr: bool, ps: seq<Probe>): Entry {
    if ps == [] then e
    else ProbeEntry(ProbeAll(e, curr, ps[..|ps| - 1]), curr, ps[|ps| - 1])
  }

  /** What a round makes of the entry of process `k`. */
  function EntryStep(e: Entry, curr: bool, r: Input, k: int): Entry {
    SettleEntry(ProbeAll(e, curr, ProbesOf(r.listing, k)), curr)
  }

  lemma {:induction false} ScanOne(m: Entries, curr: bool, listing: seq<Probe>, k: int)
    ensures Lookup(Scan(m, curr, listing), k) == ProbeAll(Lookup(m, k), curr, ProbesOf(listing, k))
  {
    if listing != [] {
      var n := |listing| - 1;
      ScanOne(m, curr, listing[..n], k);
      var ps, p := ProbesOf(listing[..n], k), listing[n];
      if p.pid == k {
        assert ProbesOf(listing, k) == ps + [p];
        assert (ps + [p])[..|ps|] == ps;
      } else {
        assert ProbesOf(listing, k) == ps;
      }
    }
  }

  lemma {:induction false} SettleOne(m: Entries, curr: bool, k: int)
    ensures Lookup(SettleAll(m, curr), k) == SettleEntry(Lookup(m, k), curr)
  {
  }

  /** Processes do not interfere: a round changes the entry of `k` by what it read about `k` alone. */
  lemma {:induction false} StepOne(s: State, r: Input, k: int)
    requires |s.board| == BOARD_SIZE
    ensures Lookup(Scanned(s, r).entries, k) == ProbeAll(Lookup(s.entries, k), s.curr, ProbesOf(r.listing, k))
    ensures Lookup(Step(s, r).entries, k) == EntryStep(Lookup(s.entries, k), s.curr, r, k)
  {
    ScanOne(s.entries, s.curr, r.listing, k);
    SettleOne(Scanned(s, r).entries, s.curr, k);
  }

  // ------------------------------------------------------- what was read last

  /** The process is in the listing and the last read of it went well. */
  predicate ReadWell(r: Input, k: int) {
    var ps := ProbesOf(r.listing, k);
    ps != [] && ps[|ps| - 1].alive
  }

  /** The sample that read gave. */
  function LastRead(r: Input, k: int): PidStats
    requires ReadWell(r, k)
  {
    var ps := ProbesOf(r.listing, k);
    ps[|ps| - 1].sample.(pid := ps[|ps| - 1].pid)
  }

  lemma {:induction false} ProbesAreOf(listing: seq<Probe>, k: int)
    ensures forall i :: 0 <= i < |ProbesOf(listing, k)| ==> ProbesOf(listing, k)[i].pid == k
  {
    if listing != [] {
      ProbesAreOf(listing[..|listing| - 1], k);
    }
  }

  /** Equal in everything that is read from the files of /proc; the counter value is apart. */
  predicate SameRead(a: PidStats, b: PidStats) {
    a == b.(cpuAccesses := a.cpuAccesses)
  }

  lemma {:induction false} ProbeAllKeepsOther(e: Entry, curr: bool, ps: seq<Probe>)
    ensures ProbeAll(e, curr, ps).slots.Get(!curr) == e.slots.Get(!curr)
  {
    if ps != [] {
      ProbeAllKeepsOther(e, curr, ps[..|ps| - 1]);
    }
  }

  lemma {:induction false} ReadFillsSlot(e: Entry, curr: bool, r: Input, k: int)
    requires ReadWell(r, k)
    ensures var s := ProbeAll(e, curr, ProbesOf(r.listing, k)).slots;
            && SameRead(s.Get(curr), LastRead(r, k)) && s.Get(curr).pid == k
            && s.Get(!curr) == e.slots.Get(!curr)
  {
    var ps := ProbesOf(r.listing, k);
    ProbeAllKeepsOther(e, curr, ps);
    ProbesAreOf(r.listing, k);
  }

  /** A settled sample: as it was read, but for dips below the sample before it. */
  predicate SettledRead(a: PidStats, read: PidStats, before: PidStats) {
    && SameRead(a, if IsActive(before, read) > 0 then UndoDips(read, before) else read)
    && a.utime == UndoDip(read.utime, before.utime)
    && a.stime == UndoDip(read.stime, before.stime)
  }

  /** A process whose times went down was active, so their dips are always undone. */
  lemma {:induction false} SettledSlot(s: Slots, curr: bool, read: PidStats)
    requires SameRead(s.Get(curr), read) && read.pid > 0
    ensures SettledRead(Settle(s, curr).Get(curr), read, s.Get(!curr))
    ensures Settle(s, curr).Get(!curr) == s.Get(!curr)
  {
  }

  /**
   When the rows of a round are written, the current slot of a process read in this round
   and the last holds this round's sample and the other slot the last round's sample, dips
   undone -- from any state, whatever else was listed in the two rounds.
   */
  lemma {:induction false} SlotsAtWrite(s: State, r1: Input, r2: Input, k: int)
    requires |s.board| == BOARD_SIZE && k > 0
    requires ReadWell(r1, k) && ReadWell(r2, k)
    ensures var s1 := Step(s, r1);
            var slots := Lookup(Scanned(s1, r2).entries, k).slots;
            && s1.curr == !s.curr
            && SameRead(slots.Get(s1.curr), LastRead(r2, k))
            && SettledRead(slots.Get(!s1.curr), LastRead(r1, k), Lookup(s.entries, k).slots.Get(!s.curr))
  {
    var s1 := Step(s, r1);
    StepOne(s, r1, k);
    StepOne(s1, r2, k);
    var e := Lookup(s.entries, k);
    ReadFillsSlot(e, s.curr, r1, k);
    SettledSlot(ProbeAll(e, s.curr, ProbesOf(r1.listing, k)).slots, s.curr, LastRead(r1, k));
    ReadFillsSlot(Lookup(s1.entries, k), s1.curr, r2, k);
  }

  // ------------------------------------------- one process through the rounds

  /** What the rounds see of one process. */
  datatype Track = Track(entry: Entry, curr: bool) {
    /** The sample kept when a round is over. */
    function Kept(): PidStats {
      entry.slots.Get(!curr)
    }
  }

  function TrackOf(s: State, k: int): Track {
    Track(Lookup(s.entries, k), s.curr)
  }

  function TrackStep(t: Track, r: Input, k: int): Track {
    Track(EntryStep(t.entry, t.curr, r, k), !t.curr)
  }

  function TrackRun(t: Track, rs: seq<Input>, k: int): Track {
    if rs == [] then t else TrackStep(TrackRun(t, rs[..|rs| - 1], k), rs[|rs| - 1], k)
  }

  lemma {:induction false} TrackOfRun(s: State, rs: seq<Input>, k: int)
    requires |s.board| == BOARD_SIZE
    ensures TrackOf(Run(s, rs), k) == TrackRun(TrackOf(s, k), rs, k)
  {
    if rs != [] {
      var n := |rs| - 1;
      TrackOfRun(s, rs[..n], k);
      StepOne(Run(s, rs[..n]), rs[n], k);
    }
  }

  /** The tick count of the row for a process with these slots; 0 when it gets none. */
  function TicksOf(slots: Slots, curr: bool): u64 {
    if Active(slots, curr)
    then CpuTicks(UndoDips(slots.Get(curr), slots.Get(!curr)), slots.Get(!curr))
    else 0
  }

  /** The tick count that process `k` emits in a round. */
  function Emitted(s: State, r: Input, k: int): u64 {
    TicksOf(Lookup(Scanned(s, r).entries, k).slots, s.curr)
  }

  function EmittedSum(s: State, rs: seq<Input>, k: int): nat
    requires |s.board| == BOARD_SIZE
  {
    if rs == [] then 0
    else EmittedSum(s, rs[..|rs| - 1], k) + Emitted(Run(s, rs[..|rs| - 1]), rs[|rs| - 1], k)
  }

  function TrackTicks(t: Track, r: Input, k: int): u64 {
    TicksOf(ProbeAll(t.entry, t.curr, ProbesOf(r.listing, k)).slots, t.curr)
  }

  function TrackSum(t: Track, rs: seq<Input>, k: int): nat {
    if rs == [] then 0
    else TrackSum(t, rs[..|rs| - 1], k) + TrackTicks(TrackRun(t, rs[..|rs| - 1], k), rs[|rs| - 1], k)
  }

  lemma {:induction false} TrackSumOfRun(s: State, rs: seq<Input>, k: int)
    requires |s.board| == BOARD_SIZE
    ensures EmittedSum(s, rs, k) == TrackSum(TrackOf(s, k), rs, k)
  {
    if rs != [] {
      var n := |rs| - 1;
      TrackSumOfRun(s, rs[..n], k);
      TrackOfRun(s, rs[..n], k);
      StepOne(Run(s, rs[..n]), rs[n], k);
    }
  }

  // ------------------------------------------------------------ telescoping

  predicate AlwaysReadWell(rs: seq<Input>, k: int) {
    forall i :: 0 <= i < |rs| ==> ReadWell(rs[i], k)
  }

  function Utimes(rs: seq<Input>, k: int): seq<u64>
    requires AlwaysReadWell(rs, k)
  {
    seq(|rs|, i requires 0 <= i < |rs| => LastRead(rs[i], k).utime)
  }

  function Stimes(rs: seq<Input>, k: int): seq<u64>
    requires AlwaysReadWell(rs, k)
  {
    seq(|rs|, i requires 0 <= i < |rs| => LastRead(rs[i], k).stime)
  }

  function RunMax(xs: seq<u64>): u64 {
    if xs == [] then 0 else Max(RunMax(xs[..|xs| - 1]), xs[|xs| - 1])
  }

  /** No sample is 100 or more below the largest before it. */
  ghost predicate OnlyDips(xs: seq<u64>) {
    forall i :: 0 <= i < |xs| ==> RunMax(xs[..i]) - xs[i] < 100
  }

  lemma {:induction false} RunMaxSnoc(rs: seq<Input>, n: nat, k: int)
    requires |rs| == n + 1 && AlwaysReadWell(rs, k)
    ensures AlwaysReadWell(rs[..n], k)
    ensures RunMax(Utimes(rs, k)) == Max(RunMax(Utimes(rs[..n], k)), LastRead(rs[n], k).utime)
    ensures RunMax(Stimes(rs, k)) == Max(RunMax(Stimes(rs[..n], k)), LastRead(rs[n], k).stime)
  {
    assert Utimes(rs, k)[..n] == Utimes(rs[..n], k) && Stimes(rs, k)[..n] == Stimes(rs[..n], k);
  }

  /** One round of a process that was read well and only dipped. */
  lemma {:induction false} TrackOnce(t: Track, r: Input, k: int)
    requires k > 0 && ReadWell(r, k)
    requires t.Kept().utime - LastRead(r, k).utime < 100 && t.Kept().stime - LastRead(r, k).stime < 100
    ensures TrackStep(t, r, k).Kept().utime == Max(t.Kept().utime, LastRead(r, k).utime)
    ensures TrackStep(t, r, k).Kept().stime == Max(t.Kept().stime, LastRead(r, k).stime)
    ensures TrackTicks(t, r, k) == Wrap64(TrackStep(t, r, k).Kept().utime + TrackStep(t, r, k).Kept().stime
                                          - t.Kept().utime - t.Kept().stime)
  {
    ReadFillsSlot(t.entry, t.curr, r, k);
    var slots := ProbeAll(t.entry, t.curr, ProbesOf(r.listing, k)).slots;
    SettledSlot(slots, t.curr, LastRead(r, k));
    TicksAreDifference(slots, t.curr);
  }

  lemma {:induction false} TicksAreDifference(slots: Slots, curr: bool)
    requires slots.Get(curr).pid > 0
    requires slots.Get(!curr).utime - slots.Get(curr).utime < 100
    requires slots.Get(!curr).stime - slots.Get(curr).stime < 100
    ensures var now, prev := Settle(slots, curr).Get(curr), slots.Get(!curr);
            TicksOf(slots, curr) == Wrap64(now.utime + now.stime - prev.utime - prev.stime)
  {
  }

  predicate ShortBy(sum: nat, wraps: nat, total: nat) {
    sum + wraps * TWO64 == total
  }

  /**
   A sum of ticks stands for a total of times: it is short of it by a multiple of 2^64, and
   so it is exact if the total fits in 64 bits.
   */
  ghost predicate Accounts(sum: nat, total: nat) {
    exists wraps: nat :: ShortBy(sum, wraps, total)
  }

  lemma {:induction false} AccountsExactly(sum: nat, total: nat)
    requires Accounts(sum, total) && total < TWO64
    ensures sum == total
  {
    var wraps: nat :| ShortBy(sum, wraps, total);
    MultipleGrows(wraps, TWO64);
  }

  lemma {:induction false} AccountsStep(sum: nat, before: nat, after: nat, ticks: u64)
    requires Accounts(sum, before) && before <= after && ticks == Wrap64(after - before)
    ensures Accounts(sum + ticks, after)
  {
    var wraps: nat :| ShortBy(sum, wraps, before);
    var more := (after - before) / TWO64;
    assert ShortBy(sum + ticks, wraps + more, after);
  }

  /** The process is read well in every round, and its times only dip. */
  ghost predicate OnlyDipping(rs: seq<Input>, k: int) {
    AlwaysReadWell(rs, k) && OnlyDips(Utimes(rs, k)) && OnlyDips(Stimes(rs, k))
  }

  lemma {:induction false} TrackKeepsMax(t: Track, rs: seq<Input>, k: int)
    requires k > 0 && t.entry.slots == ZERO_SLOTS && OnlyDipping(rs, k)
    ensures TrackRun(t, rs, k).Kept().utime == RunMax(Utimes(rs, k))
    ensures TrackRun(t, rs, k).Kept().stime == RunMax(Stimes(rs, k))
  {
    if rs != [] {
      var n := |rs| - 1;
      PrefixOnlyDips(rs, n, k);
      TrackKeepsMax(t, rs[..n], k);
      TrackOnce(TrackRun(t, rs[..n], k), rs[n], k);
      RunMaxSnoc(rs, n, k);
    }
  }

  /** The processor time kept of a process. */
  function Busy(p: PidStats): nat {
    p.utime + p.stime
  }

  lemma {:induction false} TrackTelescopes(t: Track, rs: seq<Input>, k: int)
    requires k > 0 && t.entry.slots == ZERO_SLOTS && OnlyDipping(rs, k)
    ensures Accounts(TrackSum(t, rs, k), Busy(TrackRun(t, rs, k).Kept()))
  {
    if rs == [] {
      assert ShortBy(0, 0, 0);
    } else {
      var n := |rs| - 1;
      PrefixOnlyDips(rs, n, k);
      TrackTelescopes(t, rs[..n], k);
      TrackKeepsMax(t, rs[..n], k);
      TrackAccounts(TrackRun(t, rs[..n], k), rs[n], k, TrackSum(t, rs[..n], k));
    }
  }

  lemma {:induction false} TrackAccounts(t: Track, r: Input, k: int, sum: nat)
    requires k > 0 && ReadWell(r, k)
    requires t.Kept().utime - LastRead(r, k).utime < 100 && t.Kept().stime - LastRead(r, k).stime < 100
    requires Accounts(sum, Busy(t.Kept()))
    ensures Accounts(sum + TrackTicks(t, r, k), Busy(TrackStep(t, r, k).Kept()))
  {
    TrackOnce(t, r, k);
    AccountsStep(sum, Busy(t.Kept()), Busy(TrackStep(t, r, k).Kept()), TrackTicks(t, r, k));
  }

  /**
   For a process seen for the first time and read well in every round since, whose times
   only dip: the samples kept are the running maxima of the raw ones, and the tick counts of
   all its rows add up to the final times -- modulo 2^64, and exactly if that sum fits.
   */
  lemma {:induction false} TicksTelescope(s: State, rs: seq<Input>, k: int)
    requires |s.board| == BOARD_SIZE && k > 0
    requires Lookup(s.entries, k).slots == ZERO_SLOTS && OnlyDipping(rs, k)
    ensures var kept := TrackOf(Run(s, rs), k).Kept();
            && kept.utime == RunMax(Utimes(rs, k)) && kept.stime == RunMax(Stimes(rs, k))
            && Accounts(EmittedSum(s, rs, k), Busy(kept))
            && (Busy(kept) < TWO64 ==> EmittedSum(s, rs, k) == Busy(kept))
  {
    var t := TrackOf(s, k);
    TrackOfRun(s, rs, k);
    TrackSumOfRun(s, rs, k);
    TrackKeepsMax(t, rs, k);
    TrackTelescopes(t, rs, k);
    if Busy(TrackRun(t, rs, k).Kept()) < TWO64 {
      AccountsExactly(TrackSum(t, rs, k), Busy(TrackRun(t, rs, k).Kept()));
    }
  }

  /** The kept times are running maxima all along. */
  ghost predicate AlwaysKeepsMax(t: Track, rs: seq<Input>, k: int)
    requires AlwaysReadWell(rs, k)
  {
    forall n :: 0 <= n <= |rs| ==> KeepsMaxAt(t, rs, n, k)
  }

  ghost predicate KeepsMaxAt(t: Track, rs: seq<Input>, n: nat, k: int)
    requires n <= |rs| && AlwaysReadWell(rs, k)
  {
    && TrackRun(t, rs[..n], k).Kept().utime == RunMax(Utimes(rs, k)[..n])
    && TrackRun(t, rs[..n], k).Kept().stime == RunMax(Stimes(rs, k)[..n])
  }

  lemma {:induction false} KeepsMaxAlways(t: Track, rs: seq<Input>, n: nat, k: int)
    requires k > 0 && t.entry.slots == ZERO_SLOTS && OnlyDipping(rs, k) && n <= |rs|
    ensures KeepsMaxAt(t, rs, n, k)
  {
    if n < |rs| {
      PrefixOnlyDips(rs, n, k);
    } else {
      assert rs[..n] == rs;
    }
    TrackKeepsMax(t, rs[..n], k);
    assert Utimes(rs, k)[..n] == Utimes(rs[..n], k) && Stimes(rs, k)[..n] == Stimes(rs[..n], k);
  }

  /** The limit of 100 ticks is exact: one larger fall, and a running maximum is lost. */
  lemma {:induction false} KeepsMaxIff(t: Track, rs: seq<Input>, k: int)
    requires k > 0 && t.entry.slots == ZERO_SLOTS && AlwaysReadWell(rs, k)
    ensures AlwaysKeepsMax(t, rs, k) <==> OnlyDipping(rs, k)
  {
    if OnlyDipping(rs, k) {
      forall n | 0 <= n <= |rs|
        ensures KeepsMaxAt(t, rs, n, k)
      {
        KeepsMaxAlways(t, rs, n, k);
      }
    } else if AlwaysKeepsMax(t, rs, k) {
      var i :| 0 <= i < |rs| && (RunMax(Utimes(rs, k)[..i]) - Utimes(rs, k)[i] >= 100
                                 || RunMax(Stimes(rs, k)[..i]) - Stimes(rs, k)[i] >= 100);
      BigFallLosesMax(t, rs, i, k);
    }
  }

  lemma {:induction false} BigFallLosesMax(t: Track, rs: seq<Input>, i: nat, k: int)
    requires k > 0 && i < |rs| && AlwaysReadWell(rs, k)
    requires RunMax(Utimes(rs, k)[..i]) - Utimes(rs, k)[i] >= 100
             || RunMax(Stimes(rs, k)[..i]) - Stimes(rs, k)[i] >= 100
    ensures !KeepsMaxAt(t, rs, i, k) || !KeepsMaxAt(t, rs, i + 1, k)
  {
    var u := TrackRun(t, rs[..i], k);
    assert rs[..i + 1][..i] == rs[..i];
    ReadFillsSlot(u.entry, u.curr, rs[i], k);
    SettledSlot(ProbeAll(u.entry, u.curr, ProbesOf(rs[i].listing, k)).slots, u.curr, LastRead(rs[i], k));
    assert Utimes(rs, k)[..i + 1][..i] == Utimes(rs, k)[..i];
    assert Stimes(rs, k)[..i + 1][..i] == Stimes(rs, k)[..i];
  }

  lemma {:induction false} PrefixOnlyDips(rs: seq<Input>, n: nat, k: int)
    requires n < |rs| && AlwaysReadWell(rs, k)
    requires OnlyDips(Utimes(rs, k)) && OnlyDips(Stimes(rs, k))
    ensures AlwaysReadWell(rs[..n], k)
    ensures OnlyDips(Utimes(rs[..n], k)) && OnlyDips(Stimes(rs[..n], k))
    ensures RunMax(Utimes(rs[..n], k)) - LastRead(rs[n], k).utime < 100
    ensures RunMax(Stimes(rs[..n], k)) - LastRead(rs[n], k).stime < 100
  {
    assert Utimes(rs, k)[..n] == Utimes(rs[..n], k) && Stimes(rs, k)[..n] == Stimes(rs[..n], k);
    DipsOfPrefix(Utimes(rs, k), n);
    DipsOfPrefix(Stimes(rs, k), n);
  }

  lemma {:induction false} DipsOfPrefix(xs: seq<u64>, n: nat)
    requires OnlyDips(xs) && n < |xs|
    ensures OnlyDips(xs[..n])
    ensures RunMax(xs[..n]) - xs[n] < 100
  {
    forall i | 0 <= i < n
      ensures RunMax(xs[..n][..i]) - xs[..n][i] < 100
    {
      assert xs[..n][..i] == xs[..i];
    }
  }

  // ---------------------------------------------------------- counters of idle processes

  /**
   A counter is asked for on every good read, of idle processes too: their activity is -1,
   which passes the test. The write pass takes it away again unless the process was active.
   */
  lemma {:induction false} EveryGoodReadAsksForCounter(e: Entry, curr: bool, p: Probe)
    requires p.alive && p.pid > 0
    ensures ProbeEntry(e, curr, p).counting <==> e.counting || p.granted
    ensures SettleEntry(ProbeEntry(e, curr, p), curr).counting <==>
            (e.counting || p.granted) && IsActive(e.slots.Get(!curr), Read(p)) == 1
  {
    var cur := ProbeEntry(e, curr, p).slots.Get(curr);
    assert IsActive(e.slots.Get(!curr), cur) == IsActive(e.slots.Get(!curr), Read(p));
  }

  // ------------------------------------------------- ticks and rows

  lemma {:induction false} RowCpu(keys: seq<int>, m: Entries, f: Frame)
    requires EntriesNamed(m)
    ensures forall i :: 0 <= i < |RowsOf(keys, m, f)| ==>
              RowsOf(keys, m, f)[i].cpu == Percent(TicksOf(Lookup(m, RowsOf(keys, m, f)[i].pid).slots, f.curr), f.itv)
  {
    if keys != [] {
      RowCpu(keys[1..], m, f);
      var s, rest := Lookup(m, keys[0]).slots, RowsOf(keys[1..], m, f);
      if Active(s, f.curr) {
        assert s.Get(f.curr).pid == keys[0];
        assert RowOf(s, f).cpu == Percent(TicksOf(s, f.curr), f.itv);
        assert RowsOf(keys, m, f) == [RowOf(s, f)] + rest;
      } else {
        assert RowsOf(keys, m, f) == rest;
      }
    }
  }

  /** The ticks of the telescoping sum are those behind the cpu column of the rows. */
  lemma {:induction false} RowsShowEmittedTicks(s: State, r: Input)
    requires Sound(s)
    ensures forall i :: 0 <= i < |RoundRows(s, r)| ==>
              RoundRows(s, r)[i].cpu == Percent(Emitted(s, r, RoundRows(s, r)[i].pid), FrameOf(s, r).itv)
  {
    ScannedSound(s, r);
    RowCpu(PreOrder(Scanned(s, r).tree), Scanned(s, r).entries, FrameOf(s, r));
  }
}
