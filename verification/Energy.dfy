/**
 The energy figures of src/energy.c, computed from the rows that a query selects. Reals
 stand for floats; only the figure for the processor divides by numbers that may be zero.
 */
module Energy {
  import opened Floats
  import opened Tables

  const MEMORY_POWER: real := 2.016
  const L2CACHE_MISS_LATENCY: real := 59.80
  const L2CACHE_LINE_SIZE: nat := 128
  const EDISKRPERKB: real := 0.00002 * 2.78
  const EDISKWPERKB: real := 0.00002 * 2.19
  const ENETSNDPERKB: real := 1.8 / (1024.0 * 12.330)
  const ENETRCVPERKB: real := 1.4 / (1024.0 * 5.665)

  /** The energy of moving one cache line. */
  function LineEnergy(lines: real): real {
    lines * L2CACHE_MISS_LATENCY * MEMORY_POWER / 1000000000.0
  }

  /** The column `write_bytes - cancelled_write_bytes`. */
  function Written(r: ProcessInfo): int {
    r.writeBytes - r.cancelledWriteBytes
  }

  // -------------------------------------------------- energy of single rows

  function DiskKb(readKb: int, writtenKb: int): real {
    readKb as real * EDISKRPERKB + writtenKb as real * EDISKWPERKB
  }

  /** Kilobytes are whole: each row is divided as integers. */
  function DiskRow(r: ProcessInfo): real {
    DiskKb(r.readBytes / 1024, Written(r) / 1024)
  }

  function DmaRow(r: ProcessInfo): real {
    LineEnergy(r.readBytes as real / L2CACHE_LINE_SIZE as real + Written(r) as real / L2CACHE_LINE_SIZE as real)
  }

  /** Cache lines moved for a process are counted in reals. */
  function MemoryRow(r: ProcessInfo): real {
    DmaRow(r) + LineEnergy(r.cpuAccesses as real)
  }

  /** A row of the join of the two tables on their time. */
  datatype Joined = Joined(cpu: Float, sys: SysInfo)

  function CpuRow(j: Joined): Float {
    var runPercent := Div(FromInt(j.sys.runtime), FromInt(j.sys.itv));
    Div(Mul(Mul(j.cpu, Fin(j.sys.cpupower)), runPercent), Fin(100.0))
  }

  function JoinRow(cpu: Float, sys: seq<SysInfo>): seq<Joined> {
    seq(|sys|, i requires 0 <= i < |sys| => Joined(cpu, sys[i]))
  }

  function Join(ps: seq<ProcessInfo>, sys: seq<SysInfo>): seq<Joined> {
    if ps == [] then [] else JoinRow(ps[0].cpu, AtTime(sys, ps[0].time)) + Join(ps[1..], sys)
  }

  // ------------------------------------------------------- sums over rows

  function Total(rows: seq<ProcessInfo>, e: ProcessInfo -> real): real {
    if rows == [] then 0.0 else Total(rows[..|rows| - 1], e) + e(rows[|rows| - 1])
  }

  function JoinedTotal(js: seq<Joined>, e: Joined -> Float): Float {
    if js == [] then Fin(0.0) else Add(JoinedTotal(js[..|js| - 1], e), e(js[|js| - 1]))
  }

  function CpuTotal(js: seq<Joined>): Float {
    JoinedTotal(js, CpuRow)
  }

  datatype DeviceEnergy = DeviceEnergy(ecpu: real, emem: real, enet: real, edisk: real)

  /** On the device the bytes are divided as integers, for lines and kilobytes alike. */
  function DeviceMemory(s: SysInfo): real {
    LineEnergy((s.totaldiskread / L2CACHE_LINE_SIZE + s.totaldiskwrite / L2CACHE_LINE_SIZE) as real)
    + LineEnergy(s.memaccess as real)
  }

  function DeviceDisk(s: SysInfo): real {
    DiskKb(s.totaldiskread / 1024, s.totaldiskwrite / 1024)
  }

  function DeviceNetwork(s: SysInfo): real {
    s.totalnetsnd as real * ENETSNDPERKB / 1024.0 + s.totalnetrcv as real * ENETRCVPERKB / 1024.0
  }

  function DeviceTotal(rows: seq<SysInfo>, e: SysInfo -> real): real {
    if rows == [] then 0.0 else DeviceTotal(rows[..|rows| - 1], e) + e(rows[|rows| - 1])
  }

  function CpuPower(s: SysInfo): real {
    s.cpupower
  }

  /** The figures of the devices in a window. */
  function SystemTotal(rows: seq<SysInfo>): DeviceEnergy {
    DeviceEnergy(DeviceTotal(rows, CpuPower), DeviceTotal(rows, DeviceMemory),
                 DeviceTotal(rows, DeviceNetwork), DeviceTotal(rows, DeviceDisk))
  }

  // -------------------------------------------------------------- the queries

  method CPUEnergy(db: Database, pid: int, length: int, now: int) returns (totalenergy: Float)
    ensures totalenergy == CpuTotal(Join(SelectPs(db.processInfo, pid, length, now), db.sysInfo))
  {
    var res := Join(SelectPs(db.processInfo, pid, length, now), db.sysInfo);
    totalenergy := Fin(0.0);
    var i := 0;
    while i < |res|
      invariant 0 <= i <= |res| && totalenergy == CpuTotal(res[..i])
    {
      var row := res[i];
      var runPercent := Div(FromInt(row.sys.runtime), FromInt(row.sys.itv));
      totalenergy := Add(totalenergy, Div(Mul(Mul(row.cpu, Fin(row.sys.cpupower)), runPercent), Fin(100.0)));
      i := i + 1;
      assert res[..i][..i - 1] == res[..i - 1];
    }
    assert res[..i] == res;
  }

  method DiskEnergy(db: Database, pid: int, length: int, now: int) returns (totale: real)
    ensures totale == Total(SelectPs(db.processInfo, pid, length, now), DiskRow)
  {
    var res := SelectPs(db.processInfo, pid, length, now);
    totale := 0.0;
    var i := 0;
    while i < |res|
      invariant 0 <= i <= |res| && totale == Total(res[..i], DiskRow)
    {
      var rKB, wKB := res[i].readBytes, Written(res[i]);
      totale := totale + ((rKB / 1024) as real * EDISKRPERKB + (wKB / 1024) as real * EDISKWPERKB);
      i := i + 1;
      assert res[..i][..i - 1] == res[..i - 1];
    }
    assert res[..i] == res;
  }

  method MemoryEnergy(db: Database, pid: int, length: int, now: int) returns (totalenergy: real)
    ensures totalenergy == Total(SelectPs(db.processInfo, pid, length, now), MemoryRow)
  {
    var res := SelectPs(db.processInfo, pid, length, now);
    totalenergy := 0.0;
    var i := 0;
    while i < |res|
      invariant 0 <= i <= |res| && totalenergy == Total(res[..i], MemoryRow)
    {
      var dmaRbytes, dmaWbytes := res[i].readBytes as real, Written(res[i]) as real;
      var lines := dmaRbytes / L2CACHE_LINE_SIZE as real + dmaWbytes / L2CACHE_LINE_SIZE as real;
      totalenergy := totalenergy + (LineEnergy(lines) + LineEnergy(res[i].cpuAccesses as real));
      i := i + 1;
      assert res[..i][..i - 1] == res[..i - 1];
    }
    assert res[..i] == res;
  }

  method SystemEnergy(db: Database, length: int, now: int) returns (pe: DeviceEnergy)
    ensures pe == SystemTotal(SelectSys(db.sysInfo, length, now))
  {
    var res := SelectSys(db.sysInfo, length, now);
    pe := DeviceEnergy(0.0, 0.0, 0.0, 0.0);
    var i := 0;
    while i < |res|
      invariant 0 <= i <= |res| && pe == SystemTotal(res[..i])
    {
      var s := res[i];
      pe := pe.(ecpu := pe.ecpu + s.cpupower);
      pe := pe.(emem := pe.emem + DeviceMemory(s));
      pe := pe.(edisk := pe.edisk + DeviceDisk(s));
      pe := pe.(enet := pe.enet + DeviceNetwork(s));
      i := i + 1;
      assert res[..i][..i - 1] == res[..i - 1];
    }
    assert res[..i] == res;
  }

  // ------------------------------------------------------------- the prices

  /** A kilobyte read and one written, in joules; each a constant share of the whole. */
  lemma {:induction false} DiskPrices(a: int, b: int)
    ensures DiskKb(1_000_000, 0) == 55.6 && DiskKb(0, 1_000_000) == 43.8
    ensures 1_000_000.0 * DiskKb(a, b) == a as real * DiskKb(1_000_000, 0) + b as real * DiskKb(0, 1_000_000)
  {
  }

  /** Moving cache lines takes 2.016 watts for 59.8 nanoseconds a line. */
  lemma {:induction false} LinePrice(lines: real)
    ensures LineEnergy(1_000_000_000.0) == 120.5568
    ensures 1_000_000_000.0 * LineEnergy(lines) == lines * LineEnergy(1_000_000_000.0)
  {
  }

  /** Traffic takes 1.8 watts for the time of sending at 12.33 MB/s, and 1.4 for receiving at 5.665 MB/s. */
  lemma {:induction false} NetworkPrices(s: SysInfo)
    ensures DeviceNetwork(s) == 1.8 * (s.totalnetsnd as real / (12.33 * 1048576.0))
                                + 1.4 * (s.totalnetrcv as real / (5.665 * 1048576.0))
  {
    SendPrice(s.totalnetsnd as real);
    ReceivePrice(s.totalnetrcv as real);
  }

  lemma {:induction false} SendPrice(x: real)
    ensures x * ENETSNDPERKB / 1024.0 == 1.8 * (x / (12.33 * 1048576.0))
  {
  }

  lemma {:induction false} ReceivePrice(x: real)
    ensures x * ENETRCVPERKB / 1024.0 == 1.4 * (x / (5.665 * 1048576.0))
  {
  }

  lemma {:induction false} DeviceTotalOne(s: SysInfo, e: SysInfo -> real)
    ensures DeviceTotal([s], e) == e(s)
  {
    assert [s][..0] == [];
  }

  lemma {:induction false} DeviceTotalSnoc(rows: seq<SysInfo>, s: SysInfo, e: SysInfo -> real)
    ensures DeviceTotal(rows + [s], e) == DeviceTotal(rows, e) + DeviceTotal([s], e)
  {
    assert (rows + [s])[..|rows|] == rows;
    DeviceTotalOne(s, e);
  }

  /** The four figures of one round: each from its own columns of the system row. */
  lemma {:induction false} OneRoundFigures(s: SysInfo)
    ensures var e := SystemTotal([s]);
            && e.ecpu == s.cpupower
            && e.edisk == DiskKb(s.totaldiskread / 1024, s.totaldiskwrite / 1024)
            && e.emem == LineEnergy((s.totaldiskread / 128 + s.totaldiskwrite / 128 + s.memaccess) as real)
            && e.enet == DeviceNetwork(s)
  {
    DeviceTotalOne(s, CpuPower);
    DeviceTotalOne(s, DeviceMemory);
    DeviceTotalOne(s, DeviceNetwork);
    DeviceTotalOne(s, DeviceDisk);
    LinesAddUp((s.totaldiskread / 128 + s.totaldiskwrite / 128) as real, s.memaccess as real);
  }

  lemma {:induction false} LinesAddUp(x: real, y: real)
    ensures LineEnergy(x) + LineEnergy(y) == LineEnergy(x + y)
  {
  }

  /** The figures of a window are those of its rounds, added up. */
  lemma {:induction false} FiguresAddUp(rows: seq<SysInfo>, s: SysInfo)
    ensures var e, a, b := SystemTotal(rows + [s]), SystemTotal(rows), SystemTotal([s]);
            && e.ecpu == a.ecpu + b.ecpu && e.emem == a.emem + b.emem
            && e.enet == a.enet + b.enet && e.edisk == a.edisk + b.edisk
  {
    DeviceTotalSnoc(rows, s, CpuPower);
    DeviceTotalSnoc(rows, s, DeviceMemory);
    DeviceTotalSnoc(rows, s, DeviceNetwork);
    DeviceTotalSnoc(rows, s, DeviceDisk);
  }

  /** The memory figure of one row of a process: a line for every 128 bytes moved and for every cache miss. */
  lemma {:induction false} OneRowMemory(x: ProcessInfo)
    ensures MemoryRow(x) == LineEnergy((x.readBytes + x.writeBytes - x.cancelledWriteBytes) as real / 128.0
                                       + x.cpuAccesses as real)
    ensures DiskRow(x) == DiskKb(x.readBytes / 1024, (x.writeBytes - x.cancelledWriteBytes) / 1024)
  {
    LinesAddUp(x.readBytes as real / 128.0 + Written(x) as real / 128.0, x.cpuAccesses as real);
  }
}
