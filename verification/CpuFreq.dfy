/**
 The processor energy of src/cpu_stats.c: how long the processor stayed at each frequency
 since the last read, weighed with a power between the minimum and the maximum.
 */
module CpuFreq {
  import opened Arithmetic
  import opened Counters

  const NR_FREQS: nat := 16
  const MAX_CPU_POWER: real := 24.5
  const MIN_CPU_POWER: real := 6.0

  datatype FreqData = FreqData(frequency: u64, count: u64)

  /** What can be read: the lines of every processor's table that opens, in directory order. */
  datatype Tables = NoDirectory | Read(tables: seq<seq<FreqData>>)

  function Cleared(freqs: seq<FreqData>): seq<FreqData> {
    seq(|freqs|, i requires 0 <= i < |freqs| => freqs[i].(count := 0))
  }

  /** A table overwrites the entries from the first on; lines beyond the 16th are ignored. */
  function Overlay(freqs: seq<FreqData>, table: seq<FreqData>): (r: seq<FreqData>)
    requires |freqs| == NR_FREQS
    ensures |r| == NR_FREQS
  {
    var n := Min(|table|, NR_FREQS);
    table[..n] + freqs[n..]
  }

  function OverlayAll(freqs: seq<FreqData>, tables: seq<seq<FreqData>>): (r: seq<FreqData>)
    requires |freqs| == NR_FREQS
    ensures |r| == NR_FREQS
  {
    if tables == [] then freqs
    else Overlay(OverlayAll(freqs, tables[..|tables| - 1]), tables[|tables| - 1])
  }

  /** The index of the last line of the last table; 0 when there was none. */
  function MaxFreq(tables: seq<seq<FreqData>>): int {
    if tables == [] then 0 else Min(|tables[|tables| - 1]|, NR_FREQS) - 1
  }

  /** Residency since the last read, as the unsigned difference. */
  function Residency(now: seq<FreqData>, was: seq<FreqData>): (d: seq<u64>)
    requires |now| == |was|
    ensures |d| == |now|
  {
    seq(|now|, i requires 0 <= i < |now| => Wrap64(now[i].count - was[i].count))
  }

  function WrappedSum(d: seq<u64>): u64 {
    if d == [] then 0 else Wrap64(WrappedSum(d[..|d| - 1]) + d[|d| - 1])
  }

  /** The power at the frequency with index `i`: maximal at 0, minimal at `maxfreq`. */
  function PowerAt(i: int, maxfreq: int): real
    requires maxfreq > 0
  {
    MAX_CPU_POWER - (MAX_CPU_POWER - MIN_CPU_POWER) * i as real / maxfreq as real
  }

  function TickEnergy(i: int, maxfreq: int, ticks: int): real
    requires maxfreq > 0
  {
    PowerAt(i, maxfreq) * ticks as real / 100.0
  }

  /** The energy of the given residencies at the first frequencies. */
  function EnergyOf(d: seq<int>, maxfreq: int): real
    requires maxfreq > 0
  {
    if d == [] then 0.0 else EnergyOf(d[..|d| - 1], maxfreq) + TickEnergy(|d| - 1, maxfreq, d[|d| - 1])
  }

  /** What the source computes: nothing if nothing was counted or there is but one frequency. */
  function CpuPower(d: seq<u64>, maxfreq: int): real
    requires |d| == NR_FREQS && maxfreq < NR_FREQS
  {
    if WrappedSum(d) > 0 && maxfreq > 0 then EnergyOf(d[..maxfreq + 1], maxfreq) else 0.0
  }

  lemma {:induction false} EnergyNext(d: seq<int>, i: nat, maxfreq: int)
    requires i < |d| && maxfreq > 0
    ensures EnergyOf(d[..i + 1], maxfreq) == EnergyOf(d[..i], maxfreq) + TickEnergy(i, maxfreq, d[i])
  {
    assert d[..i + 1][..i] == d[..i];
  }

  class Frequencies {
    const freqs: array<FreqData>
    const oldfreqs: array<FreqData>
    const delta: array<FreqData>

    ghost predicate Valid() {
      && freqs.Length == oldfreqs.Length == delta.Length == NR_FREQS
      && freqs != oldfreqs && freqs != delta && oldfreqs != delta
    }

    constructor ()
      ensures Valid() && fresh(freqs) && fresh(oldfreqs) && fresh(delta)
      ensures forall i :: 0 <= i < NR_FREQS ==> freqs[i] == FreqData(0, 0)
    {
      freqs := new FreqData[NR_FREQS](_ => FreqData(0, 0));
      oldfreqs := new FreqData[NR_FREQS](_ => FreqData(0, 0));
      delta := new FreqData[NR_FREQS](_ => FreqData(0, 0));
    }

    /** Keep the last counts, and clear those about to be read. */
    method StartRead()
      requires Valid()
      modifies freqs, oldfreqs
      ensures oldfreqs[..] == old(freqs[..]) && freqs[..] == Cleared(old(freqs[..]))
    {
      var ret := 0;
      while ret < NR_FREQS
        invariant 0 <= ret <= NR_FREQS
        invariant oldfreqs[..ret] == old(freqs[..ret])
        invariant forall i :: 0 <= i < ret ==> freqs[i] == old(freqs[i]).(count := 0)
        invariant forall i :: ret <= i < NR_FREQS ==> freqs[i] == old(freqs[i])
      {
        oldfreqs[ret] := freqs[ret];
        freqs[ret] := freqs[ret].(count := 0);
        ret := ret + 1;
      }
    }

    /** The table of one processor. */
    method ReadTable(table: seq<FreqData>) returns (maxfreq: int)
      requires Valid()
      modifies freqs
      ensures freqs[..] == Overlay(old(freqs[..]), table)
      ensures maxfreq == Min(|table|, NR_FREQS) - 1
    {
      var i := 0;
      while i < |table| && i <= 15
        invariant 0 <= i <= |table| && i <= NR_FREQS
        invariant freqs[..i] == table[..i] && freqs[i..] == old(freqs[i..])
      {
        freqs[i] := table[i];
        i := i + 1;
      }
      maxfreq := i - 1;
    }

    /** The tables of all processors: each overwrites the one before. */
    method ReadTables(tables: seq<seq<FreqData>>) returns (maxfreq: int)
      requires Valid()
      modifies freqs
      ensures freqs[..] == OverlayAll(old(freqs[..]), tables) && maxfreq == MaxFreq(tables)
    {
      maxfreq := 0;
      var n := 0;
      while n < |tables|
        invariant 0 <= n <= |tables|
        invariant freqs[..] == OverlayAll(old(freqs[..]), tables[..n]) && maxfreq == MaxFreq(tables[..n])
      {
        maxfreq := ReadTable(tables[n]);
        n := n + 1;
        assert tables[..n][..n - 1] == tables[..n - 1];
      }
      assert tables[..n] == tables;
    }

    method CountResidency() returns (total: u64)
      requires Valid()
      modifies delta
      ensures total == WrappedSum(Residency(freqs[..], oldfreqs[..]))
      ensures forall i :: 0 <= i < NR_FREQS ==> delta[i].count == Residency(freqs[..], oldfreqs[..])[i]
    {
      total := 0;
      var ret := 0;
      ghost var d := Residency(freqs[..], oldfreqs[..]);
      while ret < NR_FREQS
        invariant 0 <= ret <= NR_FREQS
        invariant total == WrappedSum(d[..ret])
        invariant forall i :: 0 <= i < ret ==> delta[i].count == d[i]
      {
        delta[ret] := FreqData(freqs[ret].frequency, Wrap64(freqs[ret].count - oldfreqs[ret].count));
        total := Wrap64(total + delta[ret].count);
        ret := ret + 1;
        assert d[..ret][..ret - 1] == d[..ret - 1];
      }
      assert d[..ret] == d;
    }

    method SumPower(total: u64, maxfreq: int, ghost d: seq<u64>) returns (cpupower: real)
      requires Valid() && maxfreq < NR_FREQS
      requires |d| == NR_FREQS && total == WrappedSum(d)
      requires forall i :: 0 <= i < NR_FREQS ==> delta[i].count == d[i]
      ensures cpupower == CpuPower(d, maxfreq)
    {
      cpupower := 0.0;
      var deltaPower := 0.0;
      var ret := 0;
      while ret <= maxfreq
        invariant 0 <= ret <= Max(maxfreq + 1, 0)
        invariant total > 0 && maxfreq > 0 ==> cpupower == EnergyOf(d[..ret], maxfreq)
        invariant !(total > 0 && maxfreq > 0) ==> cpupower == 0.0 && deltaPower == 0.0
      {
        if total > 0 && maxfreq > 0 {
          deltaPower := TickEnergy(ret, maxfreq, delta[ret].count);
          EnergyNext(d, ret, maxfreq);
        }
        cpupower := cpupower + deltaPower;
        ret := ret + 1;
      }
    }

    /**
     `read_cpufreq_stats`. Without support nothing is touched; without the directory the
     counts are cleared and kept, but nothing is read.
     */
    method ReadCpufreqStats(supported: bool, tables: Tables) returns (cpupower: real)
      requires Valid()
      modifies freqs, oldfreqs, delta
      ensures !supported ==> cpupower == 0.0 && freqs[..] == old(freqs[..])
      ensures supported ==> oldfreqs[..] == old(freqs[..])
      ensures supported && tables.NoDirectory? ==> cpupower == 0.0 && freqs[..] == Cleared(old(freqs[..]))
      ensures supported && tables.Read? ==>
                && freqs[..] == OverlayAll(Cleared(old(freqs[..])), tables.tables)
                && cpupower == CpuPower(Residency(freqs[..], old(freqs[..])), MaxFreq(tables.tables))
    {
      cpupower := 0.0;
      if !supported {
        return;
      }
      StartRead();
      if tables.NoDirectory? {
        return;
      }
      var maxfreq := ReadTables(tables.tables);
      var total := CountResidency();
      cpupower := SumPower(total, maxfreq, Residency(freqs[..], oldfreqs[..]));
    }
  }

  // -------------------------------------------------- bounds and telescoping

  function Sum(d: seq<int>): int {
    if d == [] then 0 else Sum(d[..|d| - 1]) + d[|d| - 1]
  }

  lemma {:induction false} PowerBetween(i: int, maxfreq: int)
    requires 0 <= i <= maxfreq && maxfreq > 0
    ensures MIN_CPU_POWER <= PowerAt(i, maxfreq) <= MAX_CPU_POWER
  {
    var q := i as real / maxfreq as real;
    assert q * maxfreq as real == i as real;
    assert 0.0 <= q <= 1.0;
    assert (MAX_CPU_POWER - MIN_CPU_POWER) * i as real / maxfreq as real == (MAX_CPU_POWER - MIN_CPU_POWER) * q;
  }

  lemma {:induction false} TickBetween(i: int, maxfreq: int, ticks: int)
    requires 0 <= i <= maxfreq && maxfreq > 0 && ticks >= 0
    ensures MIN_CPU_POWER * ticks as real / 100.0 <= TickEnergy(i, maxfreq, ticks)
            <= MAX_CPU_POWER * ticks as real / 100.0
  {
    PowerBetween(i, maxfreq);
    var p, t := PowerAt(i, maxfreq), ticks as real;
    assert (p - MIN_CPU_POWER) * t >= 0.0 && (MAX_CPU_POWER - p) * t >= 0.0;
  }

  /** The energy lies between that at minimal and that at maximal power. */
  lemma {:induction false} EnergyBetween(d: seq<int>, maxfreq: int)
    requires maxfreq > 0 && |d| <= maxfreq + 1 && forall i :: 0 <= i < |d| ==> d[i] >= 0
    ensures MIN_CPU_POWER * Sum(d) as real / 100.0 <= EnergyOf(d, maxfreq) <= MAX_CPU_POWER * Sum(d) as real / 100.0
  {
    if d != [] {
      var n := |d| - 1;
      EnergyBetween(d[..n], maxfreq);
      TickBetween(n, maxfreq, d[n]);
    }
  }

  /** Whatever was read, the figure of a round is never negative, as the accounts of energy ask. */
  lemma {:induction false} FigureNotNegative(d: seq<u64>, maxfreq: int)
    requires |d| == NR_FREQS && maxfreq < NR_FREQS
    ensures 0.0 <= CpuPower(d, maxfreq)
  {
    if maxfreq > 0 {
      EnergyBetween(d[..maxfreq + 1], maxfreq);
      SumNotNegative(d[..maxfreq + 1]);
    }
  }

  /** The change of the counts between two reads. */
  function Change(now: seq<FreqData>, was: seq<FreqData>): (d: seq<int>)
    requires |now| == |was|
    ensures |d| == |now|
  {
    seq(|now|, i requires 0 <= i < |now| => now[i].count - was[i].count)
  }

  function Counted(freqs: seq<FreqData>): int {
    if freqs == [] then 0 else Counted(freqs[..|freqs| - 1]) + freqs[|freqs| - 1].count
  }

  /** No count went down, and the counts of a read fit in 64 bits together. */
  predicate Grows(was: seq<FreqData>, now: seq<FreqData>) {
    && |was| == |now| == NR_FREQS && Counted(now) < TWO64
    && forall i :: 0 <= i < NR_FREQS ==> was[i].count <= now[i].count
  }

  lemma {:induction false} SumOfChange(now: seq<FreqData>, was: seq<FreqData>)
    requires |now| == |was|
    ensures Sum(Change(now, was)) == Counted(now) - Counted(was)
  {
    if now != [] {
      var n := |now| - 1;
      SumOfChange(now[..n], was[..n]);
      assert Change(now, was)[..n] == Change(now[..n], was[..n]);
    }
  }

  lemma {:induction false} CountedNotNegative(freqs: seq<FreqData>)
    ensures Counted(freqs) >= 0
  {
    if freqs != [] {
      CountedNotNegative(freqs[..|freqs| - 1]);
    }
  }

  lemma {:induction false} SmallSumNotWrapped(d: seq<u64>)
    requires Sum(d) < TWO64
    ensures WrappedSum(d) == Sum(d) && Sum(d) >= 0
    ensures Sum(d) == 0 ==> forall i :: 0 <= i < |d| ==> d[i] == 0
  {
    if d != [] {
      SumNotNegative(d[..|d| - 1]);
      SmallSumNotWrapped(d[..|d| - 1]);
      if Sum(d) == 0 {
        assert forall i :: 0 <= i < |d| - 1 ==> d[i] == d[..|d| - 1][i];
      }
    }
  }

  lemma {:induction false} SumNotNegative(d: seq<u64>)
    ensures Sum(d) >= 0
  {
    if d != [] {
      SumNotNegative(d[..|d| - 1]);
    }
  }

  lemma {:induction false} NoTicksNoEnergy(d: seq<int>, maxfreq: int)
    requires maxfreq > 0 && forall i :: 0 <= i < |d| ==> d[i] == 0
    ensures EnergyOf(d, maxfreq) == 0.0
  {
    if d != [] {
      NoTicksNoEnergy(d[..|d| - 1], maxfreq);
    }
  }

  lemma {:induction false} GrowsUnwrapped(was: seq<FreqData>, now: seq<FreqData>)
    requires Grows(was, now)
    ensures Residency(now, was) == Change(now, was)
  {
    forall i | 0 <= i < NR_FREQS
      ensures Residency(now, was)[i] == Change(now, was)[i]
    {
    }
  }

  /** With growing counts, the figure of a round is the energy of the exact residencies. */
  lemma {:induction false} RoundEnergy(was: seq<FreqData>, now: seq<FreqData>, maxfreq: int)
    requires Grows(was, now) && 0 < maxfreq < NR_FREQS
    ensures CpuPower(Residency(now, was), maxfreq) == EnergyOf(Change(now, was)[..maxfreq + 1], maxfreq)
  {
    var d := Residency(now, was);
    GrowsUnwrapped(was, now);
    SumOfChange(now, was);
    CountedNotNegative(was);
    SmallSumNotWrapped(d);
    if WrappedSum(d) == 0 {
      NoTicksNoEnergy(d[..maxfreq + 1], maxfreq);
    }
  }

  /** So each round's figure is between minimal and maximal power over the ticks counted. */
  lemma {:induction false} RoundEnergyBetween(was: seq<FreqData>, now: seq<FreqData>, maxfreq: int)
    requires Grows(was, now) && 0 < maxfreq < NR_FREQS
    ensures var ticks := Sum(Change(now, was)[..maxfreq + 1]);
            MIN_CPU_POWER * ticks as real / 100.0 <= CpuPower(Residency(now, was), maxfreq)
            <= MAX_CPU_POWER * ticks as real / 100.0
  {
    RoundEnergy(was, now, maxfreq);
    EnergyBetween(Change(now, was)[..maxfreq + 1], maxfreq);
  }

  lemma {:induction false} TickAdds(i: int, maxfreq: int, a: int, b: int)
    requires maxfreq > 0
    ensures TickEnergy(i, maxfreq, a + b) == TickEnergy(i, maxfreq, a) + TickEnergy(i, maxfreq, b)
  {
    var p := PowerAt(i, maxfreq);
    assert p * (a + b) as real == p * a as real + p * b as real;
  }

  lemma {:induction false} EnergyAdds(a: seq<int>, b: seq<int>, c: seq<int>, maxfreq: int)
    requires maxfreq > 0 && |a| == |b| == |c| && forall i :: 0 <= i < |c| ==> c[i] == a[i] + b[i]
    ensures EnergyOf(c, maxfreq) == EnergyOf(a, maxfreq) + EnergyOf(b, maxfreq)
  {
    if c != [] {
      var n := |c| - 1;
      EnergyAdds(a[..n], b[..n], c[..n], maxfreq);
      TickAdds(n, maxfreq, a[n], b[n]);
    }
  }

  /** The figures of consecutive reads, added up. */
  function Energies(samples: seq<seq<FreqData>>, maxfreq: int): real
    requires maxfreq < NR_FREQS && forall j :: 0 <= j < |samples| ==> |samples[j]| == NR_FREQS
  {
    if |samples| < 2 then 0.0
    else Energies(samples[..|samples| - 1], maxfreq)
         + CpuPower(Residency(samples[|samples| - 1], samples[|samples| - 2]), maxfreq)
  }

  lemma {:induction false} EnergyOfTwoChanges(a: seq<FreqData>, b: seq<FreqData>, c: seq<FreqData>, maxfreq: int)
    requires |a| == NR_FREQS && Grows(b, c) && 0 < maxfreq < NR_FREQS
    ensures EnergyOf(Change(b, a)[..maxfreq + 1], maxfreq) + CpuPower(Residency(c, b), maxfreq) ==
            EnergyOf(Change(c, a)[..maxfreq + 1], maxfreq)
  {
    RoundEnergy(b, c, maxfreq);
    EnergyAdds(Change(b, a)[..maxfreq + 1], Change(c, b)[..maxfreq + 1], Change(c, a)[..maxfreq + 1], maxfreq);
  }

  /** Over any rounds the figures add up to the energy of the net change of the counts. */
  lemma {:induction false} EnergiesTelescope(samples: seq<seq<FreqData>>, maxfreq: int)
    requires 0 < maxfreq < NR_FREQS && samples != [] && |samples[0]| == NR_FREQS
    requires forall j :: 0 < j < |samples| ==> Grows(samples[j - 1], samples[j])
    ensures forall j :: 0 <= j < |samples| ==> |samples[j]| == NR_FREQS
    ensures Energies(samples, maxfreq) ==
            EnergyOf(Change(samples[|samples| - 1], samples[0])[..maxfreq + 1], maxfreq)
  {
    var n := |samples| - 1;
    if n == 0 {
      NoTicksNoEnergy(Change(samples[0], samples[0])[..maxfreq + 1], maxfreq);
    } else {
      EnergiesTelescope(samples[..n], maxfreq);
      assert Grows(samples[n - 1], samples[n]);
      EnergyOfTwoChanges(samples[0], samples[n - 1], samples[n], maxfreq);
    }
  }

  // ------------------------------------------------------- which tables count

  /** No table is longer, in the 16 lines that are read, than the last one. */
  predicate LastIsLongest(tables: seq<seq<FreqData>>) {
    tables != [] && forall j :: 0 <= j < |tables| ==> Min(|tables[j]|, NR_FREQS) <= |tables[|tables| - 1]|
  }

  lemma {:induction false} BeyondTheLast(freqs: seq<FreqData>, tables: seq<seq<FreqData>>, n: nat)
    requires |freqs| == NR_FREQS && n <= NR_FREQS
    requires forall j :: 0 <= j < |tables| ==> Min(|tables[j]|, NR_FREQS) <= n
    ensures OverlayAll(freqs, tables)[n..] == freqs[n..]
  {
    if tables != [] {
      BeyondTheLast(freqs, tables[..|tables| - 1], n);
    }
  }

  /** Then what is read is the last table alone, as if no other processor were there. */
  lemma {:induction false} LastTableWins(freqs: seq<FreqData>, tables: seq<seq<FreqData>>)
    requires |freqs| == NR_FREQS && LastIsLongest(tables)
    ensures OverlayAll(freqs, tables) == OverlayAll(freqs, [tables[|tables| - 1]])
    ensures MaxFreq(tables) == MaxFreq([tables[|tables| - 1]])
  {
    var init, last := tables[..|tables| - 1], tables[|tables| - 1];
    var n := Min(|last|, NR_FREQS);
    BeyondTheLast(freqs, init, n);
    assert [last][..0] == [] && OverlayAll(freqs, []) == freqs;
  }

  lemma {:induction false} CountedPrefix(freqs: seq<FreqData>, n: nat)
    requires n <= |freqs| && forall i :: n <= i < |freqs| ==> freqs[i].count == 0
    ensures Counted(freqs) == Counted(freqs[..n])
  {
    if |freqs| > n {
      CountedPrefix(freqs[..|freqs| - 1], n);
      assert freqs[..|freqs| - 1][..n] == freqs[..n];
    } else {
      assert freqs[..n] == freqs;
    }
  }

  /** The counts after one read. */
  function AfterRead(freqs: seq<FreqData>, tables: seq<seq<FreqData>>): (r: seq<FreqData>)
    requires |freqs| == NR_FREQS
    ensures |r| == NR_FREQS
  {
    OverlayAll(Cleared(freqs), tables)
  }

  /** The figure of a read, given the counts that the read before has left. */
  function ReadFigure(was: seq<FreqData>, tables: seq<seq<FreqData>>): real
    requires |was| == NR_FREQS
  {
    CpuPower(Residency(AfterRead(was, tables), was), MaxFreq(tables))
  }

  /** The counts of one processor on its own. */
  function Own(table: seq<FreqData>): (r: seq<FreqData>)
    ensures |r| == NR_FREQS
  {
    Overlay(seq(NR_FREQS, _ => FreqData(0, 0)), table)
  }

  /** What one processor used between two reads of its own table. */
  function OwnFigure(before: seq<FreqData>, after: seq<FreqData>): real {
    CpuPower(Residency(Own(after), Own(before)), Min(|after|, NR_FREQS) - 1)
  }

  /** What all processors used, each measured against its own table of the read before. */
  function OwnFigures(before: seq<seq<FreqData>>, after: seq<seq<FreqData>>): real
    requires |before| == |after|
  {
    if after == [] then 0.0
    else
      var n := |after| - 1;
      OwnFigures(before[..n], after[..n]) + OwnFigure(before[n], after[n])
  }

  lemma {:induction false} OwnFiguresNotNegative(before: seq<seq<FreqData>>, after: seq<seq<FreqData>>)
    requires |before| == |after|
    ensures OwnFigures(before, after) >= 0.0
    ensures OwnFigures(before, after) == 0.0 <==>
            forall j :: 0 <= j < |after| ==> OwnFigure(before[j], after[j]) == 0.0
  {
    if after != [] {
      var n := |after| - 1;
      OwnFiguresNotNegative(before[..n], after[..n]);
      FigureNotNegative(Residency(Own(after[n]), Own(before[n])), Min(|after[n]|, NR_FREQS) - 1);
      assert forall j :: 0 <= j < n ==> before[..n][j] == before[j] && after[..n][j] == after[j];
    }
  }

  /** The lines of a table that are read. */
  function Lines(table: seq<FreqData>): nat {
    Min(|table|, 16)
  }

  function LastOf(tables: seq<seq<FreqData>>): seq<FreqData>
    requires tables != []
  {
    tables[|tables| - 1]
  }

  /**
   Two reads of the same processors, which the tables of the others do not disturb: either the
   last table is the longest in both, or it has as many lines in both and no count went down.
   */
  ghost predicate Comparable(freqs: seq<FreqData>, before: seq<seq<FreqData>>, after: seq<seq<FreqData>>)
    requires |freqs| == NR_FREQS
  {
    && |before| == |after| > 0
    && var was := AfterRead(freqs, before);
       || (LastIsLongest(before) && LastIsLongest(after))
       || (Lines(LastOf(before)) == Lines(LastOf(after)) && Grows(was, AfterRead(was, after)))
  }

  /** A read leaves the lines of the last table in front; behind them nothing, if it is the longest. */
  lemma {:induction false} CountsAfterRead(freqs: seq<FreqData>, tables: seq<seq<FreqData>>, i: nat)
    requires |freqs| == NR_FREQS && tables != [] && i < NR_FREQS
    ensures i < Lines(LastOf(tables)) ==> AfterRead(freqs, tables)[i].count == Own(LastOf(tables))[i].count
    ensures LastIsLongest(tables) ==> AfterRead(freqs, tables)[i].count == Own(LastOf(tables))[i].count
    ensures i >= Lines(LastOf(tables)) ==> Own(LastOf(tables))[i].count == 0
  {
    if LastIsLongest(tables) {
      var n := Lines(LastOf(tables));
      BeyondTheLast(Cleared(freqs), tables, n);
      assert i >= n ==> AfterRead(freqs, tables)[n..][i - n] == Cleared(freqs)[n..][i - n];
    }
  }

  lemma {:induction false} CountedAtLeast(a: seq<FreqData>, b: seq<FreqData>)
    requires |a| == |b| && forall i :: 0 <= i < |a| ==> a[i].count <= b[i].count
    ensures Counted(a) <= Counted(b)
  {
    if a != [] {
      CountedAtLeast(a[..|a| - 1], b[..|b| - 1]);
    }
  }

  /** Counts that grow, grow for the last processor on its own, and by as much. */
  lemma {:induction false} OwnGrows(freqs: seq<FreqData>, before: seq<seq<FreqData>>, after: seq<seq<FreqData>>)
    requires |freqs| == NR_FREQS && before != [] && after != [] && Lines(LastOf(before)) == Lines(LastOf(after))
    requires Grows(AfterRead(freqs, before), AfterRead(AfterRead(freqs, before), after))
    ensures Grows(Own(LastOf(before)), Own(LastOf(after)))
    ensures var was, n := AfterRead(freqs, before), Lines(LastOf(after));
            Change(AfterRead(was, after), was)[..n] == Change(Own(LastOf(after)), Own(LastOf(before)))[..n]
  {
    var was := AfterRead(freqs, before);
    forall i | 0 <= i < NR_FREQS
      ensures Own(LastOf(before))[i].count <= Own(LastOf(after))[i].count <= AfterRead(was, after)[i].count
      ensures i < Lines(LastOf(after)) ==> was[i].count == Own(LastOf(before))[i].count
                                           && AfterRead(was, after)[i].count == Own(LastOf(after))[i].count
    {
      CountsAfterRead(freqs, before, i);
      CountsAfterRead(was, after, i);
    }
    CountedAtLeast(Own(LastOf(after)), AfterRead(was, after));
  }

  /** The figure of a read is what the last processor used since the read before. */
  lemma {:induction false} LastProcessorsFigure(freqs: seq<FreqData>, before: seq<seq<FreqData>>,
                                                after: seq<seq<FreqData>>)
    requires |freqs| == NR_FREQS && Comparable(freqs, before, after)
    ensures ReadFigure(AfterRead(freqs, before), after) == OwnFigure(LastOf(before), LastOf(after))
  {
    var was := AfterRead(freqs, before);
    var now, own1, own2 := AfterRead(was, after), Own(LastOf(before)), Own(LastOf(after));
    if LastIsLongest(before) && LastIsLongest(after) {
      forall i | 0 <= i < NR_FREQS
        ensures Residency(now, was)[i] == Residency(own2, own1)[i]
      {
        CountsAfterRead(freqs, before, i);
        CountsAfterRead(was, after, i);
      }
      assert Residency(now, was) == Residency(own2, own1);
    } else if MaxFreq(after) > 0 {
      OwnGrows(freqs, before, after);
      RoundEnergy(was, now, MaxFreq(after));
      RoundEnergy(own1, own2, MaxFreq(after));
    }
  }

  /** So it is what all processors used exactly if all but the last used nothing. */
  lemma {:induction false} RightFigureIff(freqs: seq<FreqData>, before: seq<seq<FreqData>>,
                                          after: seq<seq<FreqData>>)
    requires |freqs| == NR_FREQS && Comparable(freqs, before, after)
    ensures ReadFigure(AfterRead(freqs, before), after) == OwnFigures(before, after) <==>
            forall j :: 0 <= j < |after| - 1 ==> OwnFigure(before[j], after[j]) == 0.0
  {
    var n := |after| - 1;
    LastProcessorsFigure(freqs, before, after);
    OwnFiguresNotNegative(before[..n], after[..n]);
    assert forall j :: 0 <= j < n ==> before[..n][j] == before[j] && after[..n][j] == after[j];
  }

  /** A table of two frequencies, of which the processor has spent so many ticks at the higher. */
  function TicksAtTop(ticks: u64): seq<FreqData> {
    [FreqData(2000000, ticks), FreqData(1000000, 0)]
  }

  lemma {:induction false} TopFigure(a: u64, b: u64)
    requires a <= b
    ensures OwnFigure(TicksAtTop(a), TicksAtTop(b)) == 24.5 * (b - a) as real / 100.0
  {
    var was, now := Own(TicksAtTop(a)), Own(TicksAtTop(b));
    CountedPrefix(now, 1);
    assert now[..1][..0] == [] && Counted(now[..1]) == Counted([]) + b;
    RoundEnergy(was, now, 1);
    var d := Change(now, was)[..2];
    assert d == [b - a, 0] && d[..1] == [b - a] && [b - a][..0] == [];
    assert EnergyOf(d, 1) == EnergyOf([b - a], 1) + TickEnergy(1, 1, 0);
    assert EnergyOf([b - a], 1) == EnergyOf([], 1) + TickEnergy(0, 1, b - a);
  }

  lemma {:induction false} OfTwo(a1: u64, a2: u64, b1: u64, b2: u64)
    requires a1 <= b1 && a2 <= b2
    ensures OwnFigures([TicksAtTop(a1), TicksAtTop(a2)], [TicksAtTop(b1), TicksAtTop(b2)]) ==
            24.5 * (b1 - a1) as real / 100.0 + 24.5 * (b2 - a2) as real / 100.0
  {
    TopFigure(a1, b1);
    TopFigure(a2, b2);
    var before, after := [TicksAtTop(a1), TicksAtTop(a2)], [TicksAtTop(b1), TicksAtTop(b2)];
    assert before[..1] == [TicksAtTop(a1)] && after[..1] == [TicksAtTop(b1)];
    assert OwnFigures(before, after) == OwnFigures(before[..1], after[..1]) + OwnFigure(before[1], after[1]);
    assert before[..1][..0] == [] && after[..1][..0] == [];
    assert OwnFigures(before[..1], after[..1]) == OwnFigures([], []) + OwnFigure(before[0], after[0]);
  }

  /**
   Two processors: the figure is that of the second, whatever the first used. When both were
   busy for 100 ticks it is half of what they used, and when only the first was it is nothing.
   */
  lemma {:induction false} TwoProcessorsCountAsOne(freqs: seq<FreqData>, a1: u64, a2: u64, b1: u64, b2: u64)
    requires |freqs| == NR_FREQS && a1 <= b1 && a2 <= b2
    ensures var before, after := [TicksAtTop(a1), TicksAtTop(a2)], [TicksAtTop(b1), TicksAtTop(b2)];
            && ReadFigure(AfterRead(freqs, before), after) == 24.5 * (b2 - a2) as real / 100.0
            && OwnFigures(before, after) == 24.5 * (b1 - a1) as real / 100.0 + 24.5 * (b2 - a2) as real / 100.0
  {
    var before, after := [TicksAtTop(a1), TicksAtTop(a2)], [TicksAtTop(b1), TicksAtTop(b2)];
    assert LastIsLongest(before) && LastIsLongest(after);
    LastProcessorsFigure(freqs, before, after);
    TopFigure(a2, b2);
    OfTwo(a1, a2, b1, b2);
  }

  // ------------------------------------------------ what each line stands for

  /** The table after so many more ticks at line `i`. */
  function RaisedAt(table: seq<FreqData>, i: nat, ticks: nat): seq<FreqData>
    requires i < |table| && table[i].count + ticks < TWO64
  {
    table[i := table[i].(count := table[i].count + ticks)]
  }

  lemma {:induction false} OneNonzeroEnergy(d: seq<int>, i: nat, maxfreq: int)
    requires i < |d| && maxfreq > 0 && forall j :: 0 <= j < |d| && j != i ==> d[j] == 0
    ensures EnergyOf(d, maxfreq) == TickEnergy(i, maxfreq, d[i])
  {
    var n := |d| - 1;
    if i == n {
      NoTicksNoEnergy(d[..n], maxfreq);
    } else {
      OneNonzeroEnergy(d[..n], i, maxfreq);
    }
  }

  lemma {:induction false} NoneNonzeroSum(d: seq<u64>)
    requires forall j :: 0 <= j < |d| ==> d[j] == 0
    ensures WrappedSum(d) == 0
  {
    if d != [] {
      NoneNonzeroSum(d[..|d| - 1]);
    }
  }

  lemma {:induction false} OneNonzeroSum(d: seq<u64>, i: nat)
    requires i < |d| && forall j :: 0 <= j < |d| && j != i ==> d[j] == 0
    ensures WrappedSum(d) == d[i]
  {
    var n := |d| - 1;
    if i == n {
      NoneNonzeroSum(d[..n]);
    } else {
      OneNonzeroSum(d[..n], i);
    }
  }

  lemma {:induction false} OneResidency(table: seq<FreqData>, i: nat, ticks: nat, j: nat)
    requires i < Lines(table) && table[i].count + ticks < TWO64 && j < NR_FREQS
    ensures Residency(Own(RaisedAt(table, i, ticks)), Own(table))[j] == if j == i then ticks else 0
  {
  }

  lemma {:induction false} OneLineFigure(table: seq<FreqData>, i: nat, ticks: nat)
    requires i < Lines(table) && Lines(table) > 1 && table[i].count + ticks < TWO64
    ensures OwnFigure(table, RaisedAt(table, i, ticks)) == TickEnergy(i, Lines(table) - 1, ticks)
  {
    var d, m := Residency(Own(RaisedAt(table, i, ticks)), Own(table)), Lines(table) - 1;
    forall j | 0 <= j < NR_FREQS
      ensures d[j] == if j == i then ticks else 0
    {
      OneResidency(table, i, ticks, j);
    }
    OneNonzeroSum(d, i);
    OneNonzeroEnergy(d[..m + 1], i, m);
  }

  lemma {:induction false} TwoNonzeroSum(d: seq<u64>, i: nat, j: nat)
    requires i < j < |d| && forall k :: 0 <= k < |d| && k != i && k != j ==> d[k] == 0
    ensures WrappedSum(d) == Wrap64(d[i] as int + d[j] as int)
  {
    var n := |d| - 1;
    if j == n {
      OneNonzeroSum(d[..n], i);
    } else {
      TwoNonzeroSum(d[..n], i, j);
    }
  }

  /** A count that fell is not recognised: it counts as 2^64 ticks less what it fell by. */
  lemma {:induction false} FallenCountFigure(table: seq<FreqData>, i: nat, ticks: nat)
    requires i < Lines(table) && Lines(table) > 1 && table[i].count + ticks < TWO64 && ticks > 0
    ensures OwnFigure(RaisedAt(table, i, ticks), table) == TickEnergy(i, Lines(table) - 1, TWO64 - ticks)
  {
    var d, m := Residency(Own(table), Own(RaisedAt(table, i, ticks))), Lines(table) - 1;
    forall j | 0 <= j < NR_FREQS
      ensures d[j] == if j == i then TWO64 - ticks else 0
    {
      OneFall(table, i, ticks, j);
    }
    OneNonzeroSum(d, i);
    OneNonzeroEnergy(d[..m + 1], i, m);
  }

  lemma {:induction false} OneFall(table: seq<FreqData>, i: nat, ticks: nat, j: nat)
    requires i < Lines(table) && table[i].count + ticks < TWO64 && j < NR_FREQS && ticks > 0
    ensures Residency(Own(table), Own(RaisedAt(table, i, ticks)))[j] == if j == i then TWO64 - ticks else 0
  {
  }

  /** If one count falls by what another has grown by, the sum is 0, and there is no figure. */
  lemma {:induction false} MovedTicksCountNothing(table: seq<FreqData>, i: nat, j: nat, ticks: nat)
    requires i < Lines(table) && j < Lines(table) && i != j && ticks > 0
    requires table[i].count + ticks < TWO64 && table[j].count + ticks < TWO64
    ensures OwnFigure(RaisedAt(table, i, ticks), RaisedAt(table, j, ticks)) == 0.0
  {
    var d := Residency(Own(RaisedAt(table, j, ticks)), Own(RaisedAt(table, i, ticks)));
    forall k | 0 <= k < NR_FREQS
      ensures d[k] == if k == i then TWO64 - ticks else if k == j then ticks else 0
    {
      OneMove(table, i, j, ticks, k);
    }
    TwoNonzeroSum(d, Min(i, j), Max(i, j));
    assert Wrap64(TWO64) == 0;
  }

  lemma {:induction false} OneMove(table: seq<FreqData>, i: nat, j: nat, ticks: nat, k: nat)
    requires i < Lines(table) && j < Lines(table) && i != j && ticks > 0 && k < NR_FREQS
    requires table[i].count + ticks < TWO64 && table[j].count + ticks < TWO64
    ensures Residency(Own(RaisedAt(table, j, ticks)), Own(RaisedAt(table, i, ticks)))[k] ==
            if k == i then TWO64 - ticks else if k == j then ticks else 0
  {
  }

  /** A tick is 10 ms. The first line stands for 24.5 watts, the last for 6. */
  lemma {:induction false} PowerOfEnds(table: seq<FreqData>, ticks: nat)
    requires Lines(table) > 1 && forall i :: 0 <= i < |table| ==> table[i].count + ticks < TWO64
    ensures OwnFigure(table, RaisedAt(table, 0, ticks)) == 24.5 * ticks as real / 100.0
    ensures OwnFigure(table, RaisedAt(table, Lines(table) - 1, ticks)) == 6.0 * ticks as real / 100.0
  {
    OneLineFigure(table, 0, ticks);
    OneLineFigure(table, Lines(table) - 1, ticks);
    EndPowers(Lines(table) - 1);
  }

  lemma {:induction false} EndPowers(m: int)
    requires m > 0
    ensures PowerAt(0, m) == 24.5 && PowerAt(m, m) == 6.0
  {
    assert 18.5 * m as real / m as real == 18.5;
  }

  /** What `ticks` cost less at the next of `m + 1` lines. */
  function StepEnergy(m: int, ticks: int): real
    requires m > 0
  {
    18.5 / m as real * ticks as real / 100.0
  }

  /** From line to line the power falls by equal steps. */
  lemma {:induction false} PowerFallsEvenly(table: seq<FreqData>, i: nat, ticks: nat)
    requires i + 1 < Lines(table) && forall j :: 0 <= j < |table| ==> table[j].count + ticks < TWO64
    ensures OwnFigure(table, RaisedAt(table, i, ticks)) - OwnFigure(table, RaisedAt(table, i + 1, ticks)) ==
            StepEnergy(Lines(table) - 1, ticks)
  {
    OneLineFigure(table, i, ticks);
    OneLineFigure(table, i + 1, ticks);
    StepOfEnergy(i, Lines(table) - 1, ticks);
  }

  lemma {:induction false} StepOfEnergy(i: int, m: int, ticks: int)
    requires m > 0
    ensures TickEnergy(i, m, ticks) - TickEnergy(i + 1, m, ticks) == StepEnergy(m, ticks)
  {
    StepOfPower(i, m);
    EnergyOfStep(PowerAt(i, m), PowerAt(i + 1, m), ticks as real);
  }

  lemma {:induction false} StepOfPower(i: int, m: int)
    requires m > 0
    ensures PowerAt(i, m) - PowerAt(i + 1, m) == 18.5 / m as real
  {
    var x := 1.0 / m as real;
    assert 18.5 * i as real / m as real == 18.5 * i as real * x;
    assert 18.5 * (i + 1) as real / m as real == 18.5 * (i + 1) as real * x;
  }

  lemma {:induction false} EnergyOfStep(p: real, q: real, t: real)
    ensures p * t / 100.0 - q * t / 100.0 == (p - q) * t / 100.0
  {
  }

  /** With growing counts there is no figure exactly if there is one frequency at most, or no tick was counted. */
  lemma {:induction false} NoFigureIff(was: seq<FreqData>, now: seq<FreqData>, tables: seq<seq<FreqData>>)
    requires Grows(was, now)
    ensures CpuPower(Residency(now, was), MaxFreq(tables)) == 0.0 <==>
            tables == [] || |tables[|tables| - 1]| <= 1 || Sum(Change(now, was)[..MaxFreq(tables) + 1]) == 0
  {
    if MaxFreq(tables) > 0 {
      RoundEnergyBetween(was, now, MaxFreq(tables));
      SumNotNegative(Change(now, was)[..MaxFreq(tables) + 1]);
    }
  }

  // ------------------------------------------------------- a run of reads

  /** The counts after a number of reads, each with the tables of its round. */
  function AfterReads(freqs: seq<FreqData>, rounds: seq<seq<seq<FreqData>>>): (r: seq<FreqData>)
    requires |freqs| == NR_FREQS
    ensures |r| == NR_FREQS
  {
    if rounds == [] then freqs
    else AfterRead(AfterReads(freqs, rounds[..|rounds| - 1]), rounds[|rounds| - 1])
  }

  /** The figures of these rounds, added up. */
  function ReadFigures(freqs: seq<FreqData>, rounds: seq<seq<seq<FreqData>>>): real
    requires |freqs| == NR_FREQS
  {
    if rounds == [] then 0.0
    else
      var init := rounds[..|rounds| - 1];
      ReadFigures(freqs, init) + ReadFigure(AfterReads(freqs, init), rounds[|rounds| - 1])
  }

  /** Every read finds as many frequencies, and no count has gone down. */
  ghost predicate Steady(freqs: seq<FreqData>, rounds: seq<seq<seq<FreqData>>>, maxfreq: int)
    requires |freqs| == NR_FREQS
  {
    forall j :: 0 <= j < |rounds| ==> SteadyAt(freqs, rounds, j, maxfreq)
  }

  ghost predicate SteadyAt(freqs: seq<FreqData>, rounds: seq<seq<seq<FreqData>>>, j: nat, maxfreq: int)
    requires |freqs| == NR_FREQS && j < |rounds|
  {
    MaxFreq(rounds[j]) == maxfreq && Grows(AfterReads(freqs, rounds[..j]), AfterReads(freqs, rounds[..j + 1]))
  }

  /** The figures of any run of steady reads add up to the energy of the net change of the counts. */
  lemma {:induction false} ReadsTelescope(freqs: seq<FreqData>, rounds: seq<seq<seq<FreqData>>>, maxfreq: int)
    requires |freqs| == NR_FREQS && 0 < maxfreq < NR_FREQS && Steady(freqs, rounds, maxfreq)
    ensures ReadFigures(freqs, rounds) == EnergyOf(Change(AfterReads(freqs, rounds), freqs)[..maxfreq + 1], maxfreq)
  {
    if rounds == [] {
      NoTicksNoEnergy(Change(freqs, freqs)[..maxfreq + 1], maxfreq);
    } else {
      var n := |rounds| - 1;
      SteadyPrefix(freqs, rounds, n, maxfreq);
      ReadsTelescope(freqs, rounds[..n], maxfreq);
      assert SteadyAt(freqs, rounds, n, maxfreq) && rounds[..n + 1] == rounds;
      EnergyOfTwoChanges(freqs, AfterReads(freqs, rounds[..n]), AfterReads(freqs, rounds), maxfreq);
    }
  }

  lemma {:induction false} SteadyPrefix(freqs: seq<FreqData>, rounds: seq<seq<seq<FreqData>>>, n: nat, maxfreq: int)
    requires |freqs| == NR_FREQS && n <= |rounds| && Steady(freqs, rounds, maxfreq)
    ensures Steady(freqs, rounds[..n], maxfreq)
  {
    forall j | 0 <= j < n
      ensures SteadyAt(freqs, rounds[..n], j, maxfreq)
    {
      assert SteadyAt(freqs, rounds, j, maxfreq);
      assert rounds[..n][..j] == rounds[..j] && rounds[..n][..j + 1] == rounds[..j + 1];
    }
  }

  /** What `main_loop` makes of the frequencies: one read a round. The figures end up in the system rows. */
  method ReadEachRound(f: Frequencies, rounds: seq<seq<seq<FreqData>>>) returns (energy: real)
    requires f.Valid()
    modifies f.freqs, f.oldfreqs, f.delta
    ensures f.freqs[..] == AfterReads(old(f.freqs[..]), rounds)
    ensures energy == ReadFigures(old(f.freqs[..]), rounds)
  {
    energy := 0.0;
    var i := 0;
    ghost var was := f.freqs[..];
    while i < |rounds|
      invariant 0 <= i <= |rounds|
      invariant f.freqs[..] == AfterReads(was, rounds[..i])
      invariant energy == ReadFigures(was, rounds[..i])
    {
      var cpupower := f.ReadCpufreqStats(true, Read(rounds[i]));
      energy := energy + cpupower;
      i := i + 1;
      assert rounds[..i][..i - 1] == rounds[..i - 1];
    }
    assert rounds[..i] == rounds;
  }
}
