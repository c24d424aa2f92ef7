/** What each component of the first line of /proc/stat does to the two sums that are stored of it. */
module CpuTimes {
  import opened Arithmetic
  import opened Counters
  import opened Rounds

  datatype Component = User | Nice | System | Idle | Iowait | Hardirq | Softirq | Steal | Guest

  function Of(line: CpuLine, c: Component): u64 {
    match c
    case User => line.user
    case Nice => line.nice
    case System => line.system
    case Idle => line.idle
    case Iowait => line.iowait
    case Hardirq => line.hardirq
    case Softirq => line.softirq
    case Steal => line.steal
    case Guest => line.guest
  }

  /** The line with one component raised by `d`. */
  function Raised(line: CpuLine, c: Component, d: nat): CpuLine
    requires Of(line, c) + d < TWO64
  {
    match c
    case User => line.(user := line.user + d)
    case Nice => line.(nice := line.nice + d)
    case System => line.(system := line.system + d)
    case Idle => line.(idle := line.idle + d)
    case Iowait => line.(iowait := line.iowait + d)
    case Hardirq => line.(hardirq := line.hardirq + d)
    case Softirq => line.(softirq := line.softirq + d)
    case Steal => line.(steal := line.steal + d)
    case Guest => line.(guest := line.guest + d)
  }

  /** By how much the sums grow when the component does. */
  function InAllTime(c: Component, d: int): int {
    if c.Guest? then 0 else d
  }

  function InBusyTime(c: Component, d: int): int {
    if c.User? || c.System? then d else if c.Guest? then -d else 0
  }

  lemma {:induction false} WrapMoves(x: int, d: int)
    ensures Wrap32(x + d) == Wrap32(Wrap32(x) + d)
  {
    var q := x / TWO32;
    assert x + d == Wrap32(x) + d + q * TWO32;
    AddMultiple(Wrap32(x) + d, q, TWO32);
  }

  /**
   All time counts everything but the time of guests, which is part of user time. Busy time
   is user and system time without the guests: niced time, interrupts and steal are not in it.
   */
  lemma {:induction false} RaisedSums(r: Input, c: Component, d: nat)
    requires Of(r.cpuLine, c) + d < TWO64
    ensures var was, now := SysSample(r), SysSample(r.(cpuLine := Raised(r.cpuLine, c, d)));
            && now.itv == Wrap32(was.itv + InAllTime(c, d))
            && now.runtime == Wrap32(was.runtime + InBusyTime(c, d))
  {
    var line := r.cpuLine;
    RaisedLine(line, c, d);
    WrapMoves(line.Total(), InAllTime(c, d));
    WrapMoves(line.Busy(), InBusyTime(c, d));
  }

  lemma {:induction false} RaisedLine(line: CpuLine, c: Component, d: nat)
    requires Of(line, c) + d < TWO64
    ensures Raised(line, c, d).Total() == line.Total() + InAllTime(c, d)
    ensures Raised(line, c, d).Busy() == line.Busy() + InBusyTime(c, d)
  {
  }

  lemma {:induction false} ZeroLineSums(line: CpuLine)
    requires forall c: Component :: Of(line, c) == 0
    ensures line.Total() == 0 && line.Busy() == 0
  {
    assert Of(line, User) == 0 && Of(line, Nice) == 0 && Of(line, System) == 0;
    assert Of(line, Idle) == 0 && Of(line, Iowait) == 0 && Of(line, Hardirq) == 0;
    assert Of(line, Softirq) == 0 && Of(line, Steal) == 0 && Of(line, Guest) == 0;
  }

  lemma {:induction false} WrapSmall(x: int)
    requires 0 <= x < TWO32
    ensures Wrap32(x) == x
  {
  }

  /** A line of zeros stores zeros. */
  lemma {:induction false} ZeroSums(r: Input)
    requires forall c: Component :: Of(r.cpuLine, c) == 0
    ensures SysSample(r).itv == 0 && SysSample(r).runtime == 0
  {
    ZeroLineSums(r.cpuLine);
    WrapSmall(r.cpuLine.Total());
    WrapSmall(r.cpuLine.Busy());
  }
}
