/** The two tables of src/database.c that the energy figures are computed from. */
module Tables {
  import opened Counters
  import opened Floats

  /** A row of `process_info`: what one process did in one round. */
  datatype ProcessInfo = ProcessInfo(
    time: int, pid: u32,
    utime: Float, stime: Float, gtime: Float, cpu: Float,
    vsz: u32, rss: u32,
    readBytes: u64, writeBytes: u64, cancelledWriteBytes: u64,
    netsnd: u64, netrcv: u64, cpuAccesses: u64)

  const NO_PROCESS_INFO := ProcessInfo(0, 0, Fin(0.0), Fin(0.0), Fin(0.0), Fin(0.0), 0, 0, 0, 0, 0, 0, 0, 0)

  /** A row of `sys_info`: what the devices did in one round. */
  datatype SysInfo = SysInfo(
    time: int,
    totalnetsnd: u64, totalnetrcv: u64, totaldiskread: u64, totaldiskwrite: u64,
    cpupower: real, memaccess: u64, itv: u32, runtime: u32, activeProcessNum: int)

  const NO_SYS_INFO := SysInfo(0, 0, 0, 0, 0, 0.0, 0, 0, 0, 0)

  // ------------------------------------------------------------- the queries

  /** What `DELETE ... where time < cutoff` leaves. */
  function KeepPs(rows: seq<ProcessInfo>, cutoff: int): seq<ProcessInfo> {
    if rows == [] then []
    else (if rows[0].time < cutoff then [] else [rows[0]]) + KeepPs(rows[1..], cutoff)
  }

  function KeepSys(rows: seq<SysInfo>, cutoff: int): seq<SysInfo> {
    if rows == [] then []
    else (if rows[0].time < cutoff then [] else [rows[0]]) + KeepSys(rows[1..], cutoff)
  }

  /** A deletion works row by row, and leaves the order of the rows alone. */
  lemma {:induction false} KeepPsConcat(a: seq<ProcessInfo>, b: seq<ProcessInfo>, cutoff: int)
    ensures KeepPs(a + b, cutoff) == KeepPs(a, cutoff) + KeepPs(b, cutoff)
  {
    if a == [] {
      assert a + b == b;
    } else {
      KeepPsConcat(a[1..], b, cutoff);
      assert (a + b)[1..] == a[1..] + b && (a + b)[0] == a[0];
      var first, rest := if a[0].time < cutoff then [] else [a[0]], KeepPs(a[1..], cutoff);
      assert first + (rest + KeepPs(b, cutoff)) == first + rest + KeepPs(b, cutoff);
    }
  }

  lemma {:induction false} KeepSysConcat(a: seq<SysInfo>, b: seq<SysInfo>, cutoff: int)
    ensures KeepSys(a + b, cutoff) == KeepSys(a, cutoff) + KeepSys(b, cutoff)
  {
    if a == [] {
      assert a + b == b;
    } else {
      KeepSysConcat(a[1..], b, cutoff);
      assert (a + b)[1..] == a[1..] + b && (a + b)[0] == a[0];
      var first, rest := if a[0].time < cutoff then [] else [a[0]], KeepSys(a[1..], cutoff);
      assert first + (rest + KeepSys(b, cutoff)) == first + rest + KeepSys(b, cutoff);
    }
  }

  /** It keeps exactly the rows that are not older than the cutoff, each as often as it was there. */
  lemma {:induction false} KeepPsExactly(rows: seq<ProcessInfo>, cutoff: int, x: ProcessInfo)
    ensures multiset(KeepPs(rows, cutoff))[x] == if x.time < cutoff then 0 else multiset(rows)[x]
  {
    if rows != [] {
      KeepPsExactly(rows[1..], cutoff, x);
      assert rows == [rows[0]] + rows[1..];
    }
  }

  lemma {:induction false} KeepSysExactly(rows: seq<SysInfo>, cutoff: int, x: SysInfo)
    ensures multiset(KeepSys(rows, cutoff))[x] == if x.time < cutoff then 0 else multiset(rows)[x]
  {
    if rows != [] {
      KeepSysExactly(rows[1..], cutoff, x);
      assert rows == [rows[0]] + rows[1..];
    }
  }

  predicate InWindow(time: int, length: int, now: int) {
    now - length < time <= now
  }

  /** The rows of one process in the window. */
  function SelectPs(rows: seq<ProcessInfo>, pid: int, length: int, now: int): seq<ProcessInfo> {
    if rows == [] then []
    else (if rows[0].pid == pid && InWindow(rows[0].time, length, now) then [rows[0]] else [])
         + SelectPs(rows[1..], pid, length, now)
  }

  function SelectSys(rows: seq<SysInfo>, length: int, now: int): seq<SysInfo> {
    if rows == [] then []
    else (if InWindow(rows[0].time, length, now) then [rows[0]] else [])
         + SelectSys(rows[1..], length, now)
  }

  /** A query selects the rows of the process after `now - length` up to `now` itself, as often as they are there. */
  lemma {:induction false} SelectPsExactly(rows: seq<ProcessInfo>, pid: int, length: int, now: int, x: ProcessInfo)
    ensures multiset(SelectPs(rows, pid, length, now))[x] ==
            if x.pid == pid && now - length < x.time <= now then multiset(rows)[x] else 0
  {
    if rows != [] {
      SelectPsExactly(rows[1..], pid, length, now, x);
      assert rows == [rows[0]] + rows[1..];
    }
  }

  lemma {:induction false} SelectSysExactly(rows: seq<SysInfo>, length: int, now: int, x: SysInfo)
    ensures multiset(SelectSys(rows, length, now))[x] ==
            if now - length < x.time <= now then multiset(rows)[x] else 0
  {
    if rows != [] {
      SelectSysExactly(rows[1..], length, now, x);
      assert rows == [rows[0]] + rows[1..];
    }
  }

  /** It works row by row, and leaves the order of the rows alone. */
  lemma {:induction false} SelectPsConcat(a: seq<ProcessInfo>, b: seq<ProcessInfo>, pid: int, length: int, now: int)
    ensures SelectPs(a + b, pid, length, now) == SelectPs(a, pid, length, now) + SelectPs(b, pid, length, now)
  {
    if a == [] {
      assert a + b == b;
    } else {
      SelectPsConcat(a[1..], b, pid, length, now);
      assert (a + b)[1..] == a[1..] + b && (a + b)[0] == a[0];
      var first := if a[0].pid == pid && InWindow(a[0].time, length, now) then [a[0]] else [];
      var rest, more := SelectPs(a[1..], pid, length, now), SelectPs(b, pid, length, now);
      assert first + (rest + more) == first + rest + more;
    }
  }

  lemma {:induction false} SelectSysConcat(a: seq<SysInfo>, b: seq<SysInfo>, length: int, now: int)
    ensures SelectSys(a + b, length, now) == SelectSys(a, length, now) + SelectSys(b, length, now)
  {
    if a == [] {
      assert a + b == b;
    } else {
      SelectSysConcat(a[1..], b, length, now);
      assert (a + b)[1..] == a[1..] + b && (a + b)[0] == a[0];
      var first := if InWindow(a[0].time, length, now) then [a[0]] else [];
      var rest, more := SelectSys(a[1..], length, now), SelectSys(b, length, now);
      assert first + (rest + more) == first + rest + more;
    }
  }

  /** The system rows taken at a given time. */
  function AtTime(rows: seq<SysInfo>, time: int): seq<SysInfo> {
    if rows == [] then []
    else (if rows[0].time == time then [rows[0]] else []) + AtTime(rows[1..], time)
  }

  class Database {
    var processInfo: seq<ProcessInfo>
    var sysInfo: seq<SysInfo>

    constructor ()
      ensures processInfo == [] && sysInfo == []
    {
      processInfo, sysInfo := [], [];
    }

    method InsertPs(row: ProcessInfo)
      modifies this`processInfo
      ensures processInfo == old(processInfo) + [row]
    {
      processInfo := processInfo + [row];
    }

    method InsertSysInfo(row: SysInfo)
      modifies this`sysInfo
      ensures sysInfo == old(sysInfo) + [row]
    {
      sysInfo := sysInfo + [row];
    }

    /** Each deletion asks for the time itself. */
    method FreeupAll(interval: u32, nowPs: int, nowSys: int)
      modifies this
      ensures processInfo == KeepPs(old(processInfo), nowPs - interval)
      ensures sysInfo == KeepSys(old(sysInfo), nowSys - interval)
    {
      processInfo := KeepPs(processInfo, nowPs - interval);
      sysInfo := KeepSys(sysInfo, nowSys - interval);
    }
  }
}
