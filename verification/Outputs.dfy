/**
 What the write pass of a round puts out: one row for each active process, the disk totals
 of the system, and the ranked list.
 */
module Outputs {
  import opened Arithmetic
  import opened Counters
  import opened Floats
  import opened Samples
  import opened Tables
  import opened Ranking
  import opened AvlShape
  import opened Rounds

  /** The rows of the active processes among `keys`, in the order of `keys`. */
  function RowsOf(keys: seq<int>, m: Entries, f: Frame): seq<ProcessInfo> {
    if keys == [] then []
    else
      var s := Lookup(m, keys[0]).slots;
      (if Active(s, f.curr) then [RowOf(s, f)] else []) + RowsOf(keys[1..], m, f)
  }

  /** The bytes that one process adds to the device totals. */
  function ActiveRead(s: Slots, curr: bool): nat {
    if Active(s, curr) then DiskRead(s.Get(curr), s.Get(!curr)) else 0
  }

  function ActiveWritten(s: Slots, curr: bool): nat {
    if Active(s, curr) then DiskWritten(s.Get(curr), s.Get(!curr)) else 0
  }

  function ReadSum(keys: seq<int>, m: Entries, curr: bool): nat {
    if keys == [] then 0 else ActiveRead(Lookup(m, keys[0]).slots, curr) + ReadSum(keys[1..], m, curr)
  }

  function WrittenSum(keys: seq<int>, m: Entries, curr: bool): nat {
    if keys == [] then 0 else ActiveWritten(Lookup(m, keys[0]).slots, curr) + WrittenSum(keys[1..], m, curr)
  }

  /** The rows that are offered to the ranked list. */
  function ShownOf(rows: seq<ProcessInfo>, screen: bool): seq<ProcessInfo> {
    if rows == [] then []
    else (if screen && Shown(rows[0]) then [rows[0]] else []) + ShownOf(rows[1..], screen)
  }

  lemma {:induction false} WrapSum(a: nat, b: nat)
    ensures Wrap64(Wrap64(a) + b) == Wrap64(a + b)
  {
    var q := a / TWO64;
    AddMultiple(Wrap64(a) + b, q, TWO64);
    assert Wrap64(a) + b + q * TWO64 == a + b;
  }

  lemma {:induction false} WalkRows(p: Pass, keys: seq<int>, m: Entries, f: Frame)
    requires |p.board| == BOARD_SIZE
    ensures Walk(p, keys, m, f).rows == p.rows + RowsOf(keys, m, f)
    decreases |keys|
  {
    if keys != [] {
      WalkRows(Visit(p, Lookup(m, keys[0]).slots, f), keys[1..], m, f);
    }
  }

  lemma {:induction false} VisitTotals(p: Pass, s: Slots, f: Frame, r: nat, w: nat)
    requires |p.board| == BOARD_SIZE && p.diskRead == Wrap64(r) && p.diskWritten == Wrap64(w)
    ensures Visit(p, s, f).diskRead == Wrap64(r + ActiveRead(s, f.curr))
    ensures Visit(p, s, f).diskWritten == Wrap64(w + ActiveWritten(s, f.curr))
  {
    WrapSum(r, ActiveRead(s, f.curr));
    WrapSum(w, ActiveWritten(s, f.curr));
  }

  lemma {:induction false} WalkTotals(p: Pass, keys: seq<int>, m: Entries, f: Frame, r: nat, w: nat)
    requires |p.board| == BOARD_SIZE && p.diskRead == Wrap64(r) && p.diskWritten == Wrap64(w)
    ensures Walk(p, keys, m, f).diskRead == Wrap64(r + ReadSum(keys, m, f.curr))
    ensures Walk(p, keys, m, f).diskWritten == Wrap64(w + WrittenSum(keys, m, f.curr))
    decreases |keys|
  {
    if keys != [] {
      var s := Lookup(m, keys[0]).slots;
      VisitTotals(p, s, f, r, w);
      WalkTotals(Visit(p, s, f), keys[1..], m, f, r + ActiveRead(s, f.curr), w + ActiveWritten(s, f.curr));
    }
  }

  lemma {:induction false} OfferNext(board: seq<ProcessInfo>, recs: seq<ProcessInfo>, x: ProcessInfo)
    requires |board| == BOARD_SIZE
    ensures OfferAll(board, recs + [x]) == Offer(OfferAll(board, recs), x, Min(|recs|, SHOW_NUM))
  {
    assert (recs + [x])[..|recs|] == recs;
  }

  /** The records that one process contributes. */
  function Offered(s: Slots, f: Frame): seq<ProcessInfo> {
    if Active(s, f.curr) && f.screen && Shown(RowOf(s, f)) then [RowOf(s, f)] else []
  }

  lemma {:induction false} ShownCons(s: Slots, rest: seq<ProcessInfo>, f: Frame)
    ensures ShownOf((if Active(s, f.curr) then [RowOf(s, f)] else []) + rest, f.screen)
            == Offered(s, f) + ShownOf(rest, f.screen)
  {
    if Active(s, f.curr) {
      assert ([RowOf(s, f)] + rest)[1..] == rest;
    } else {
      assert [] + rest == rest;
    }
  }

  lemma {:induction false} VisitBoard(p: Pass, s: Slots, f: Frame, board: seq<ProcessInfo>, recs: seq<ProcessInfo>)
    requires |board| == BOARD_SIZE && p.board == OfferAll(board, recs) && p.shown == |recs|
    ensures Visit(p, s, f).board == OfferAll(board, recs + Offered(s, f))
    ensures Visit(p, s, f).shown == |recs + Offered(s, f)|
  {
    if Offered(s, f) == [] {
      assert recs + [] == recs;
    } else {
      OfferNext(board, recs, RowOf(s, f));
    }
  }

  lemma {:induction false} VisitMore(p: Pass, s: Slots, rest: seq<ProcessInfo>, f: Frame,
                                     board: seq<ProcessInfo>, recs: seq<ProcessInfo>) returns (more: seq<ProcessInfo>)
    requires |board| == BOARD_SIZE && p.board == OfferAll(board, recs) && p.shown == |recs|
    ensures Visit(p, s, f).board == OfferAll(board, more) && Visit(p, s, f).shown == |more|
    ensures more + ShownOf(rest, f.screen) ==
            recs + ShownOf((if Active(s, f.curr) then [RowOf(s, f)] else []) + rest, f.screen)
  {
    var o := Offered(s, f);
    more := recs + o;
    VisitBoard(p, s, f, board, recs);
    ShownCons(s, rest, f);
    var tail := ShownOf(rest, f.screen);
    assert recs + o + tail == recs + (o + tail);
  }

  lemma {:induction false} WalkBoard(p: Pass, keys: seq<int>, m: Entries, f: Frame,
                                     board: seq<ProcessInfo>, recs: seq<ProcessInfo>)
    requires |board| == BOARD_SIZE && p.board == OfferAll(board, recs) && p.shown == |recs|
    ensures var all := recs + ShownOf(RowsOf(keys, m, f), f.screen);
            Walk(p, keys, m, f).board == OfferAll(board, all) && Walk(p, keys, m, f).shown == |all|
    decreases |keys|
  {
    if keys == [] {
      assert recs + [] == recs;
    } else {
      var s := Lookup(m, keys[0]).slots;
      var rest := RowsOf(keys[1..], m, f);
      var more := VisitMore(p, s, rest, f, board, recs);
      WalkBoard(Visit(p, s, f), keys[1..], m, f, board, more);
    }
  }

  /** The rows of a round. */
  function RoundRows(s: State, r: Input): seq<ProcessInfo> {
    RowsOf(PreOrder(Scanned(s, r).tree), Scanned(s, r).entries, FrameOf(s, r))
  }

  lemma {:induction false} ShownUniform(rows: seq<ProcessInfo>, screen: bool)
    requires Uniform(rows)
    ensures Uniform(ShownOf(rows, screen))
    ensures forall x :: x in ShownOf(rows, screen) ==> x in rows
  {
    ShownMembers(rows, screen);
    var sub := ShownOf(rows, screen);
    forall i, j | 0 <= i < |sub| && 0 <= j < |sub|
      ensures SameKind(sub[i].cpu, sub[j].cpu)
    {
      assert sub[i] in rows && sub[j] in rows;
      var a :| 0 <= a < |rows| && rows[a] == sub[i];
      var b :| 0 <= b < |rows| && rows[b] == sub[j];
      assert SameKind(rows[a].cpu, rows[b].cpu);
    }
  }

  lemma {:induction false} ShownMembers(rows: seq<ProcessInfo>, screen: bool)
    ensures forall x :: x in ShownOf(rows, screen) ==> x in rows
  {
    if rows != [] {
      ShownMembers(rows[1..], screen);
    }
  }

  ghost predicate IsPercentOf(cpu: Float, itv: nat) {
    exists ticks: nat :: cpu == Percent(ticks, itv)
  }

  /** All percentages are of the same interval. */
  ghost predicate OneInterval(rows: seq<ProcessInfo>, itv: nat) {
    forall i :: 0 <= i < |rows| ==> IsPercentOf(rows[i].cpu, itv)
  }

  lemma {:induction false} RowsOneInterval(keys: seq<int>, m: Entries, f: Frame)
    ensures OneInterval(RowsOf(keys, m, f), f.itv)
  {
    if keys != [] {
      RowsOneInterval(keys[1..], m, f);
      var s := Lookup(m, keys[0]).slots;
      var cur := UndoDips(s.Get(f.curr), s.Get(!f.curr));
      assert RowOf(s, f).cpu == Percent(CpuTicks(cur, s.Get(!f.curr)), f.itv);
      assert IsPercentOf(RowOf(s, f).cpu, f.itv);
      var rest := RowsOf(keys[1..], m, f);
      assert RowsOf(keys, m, f) == if Active(s, f.curr) then [RowOf(s, f)] + rest else rest;
    }
  }

  lemma {:induction false} PercentsUniform(rows: seq<ProcessInfo>, itv: nat)
    requires OneInterval(rows, itv)
    ensures Uniform(rows)
  {
    forall i, j | 0 <= i < |rows| && 0 <= j < |rows|
      ensures SameKind(rows[i].cpu, rows[j].cpu)
    {
      assert IsPercentOf(rows[i].cpu, itv) && IsPercentOf(rows[j].cpu, itv);
      var a: nat :| rows[i].cpu == Percent(a, itv);
      var b: nat :| rows[j].cpu == Percent(b, itv);
      PercentValue(a, itv);
      PercentValue(b, itv);
    }
  }

  /** The records a round offers to the ranked list. */
  function RoundRecords(s: State, r: Input): seq<ProcessInfo> {
    ShownOf(RoundRows(s, r), r.screen)
  }

  lemma {:induction false} RoundOffers(s: State, r: Input)
    requires |s.board| == BOARD_SIZE
    ensures WritePass(Scanned(s, r), r).board == OfferAll(s.board, RoundRecords(s, r))
    ensures WritePass(Scanned(s, r), r).shown == |RoundRecords(s, r)|
    ensures Uniform(RoundRecords(s, r))
  {
    var s1 := Scanned(s, r);
    var keys, f := PreOrder(s1.tree), FrameOf(s, r);
    var rows := RowsOf(keys, s1.entries, f);
    WalkBoard(Pass(s.processInfo, 0, 0, s.board, 0), keys, s1.entries, f, s.board, []);
    assert [] + ShownOf(rows, r.screen) == ShownOf(rows, r.screen);
    RowsOneInterval(keys, s1.entries, f);
    PercentsUniform(rows, f.itv);
    ShownUniform(rows, r.screen);
  }

  /**
   The ranked list after a round: the stable sort, by descending cpu, of the first 40 of the
   round's records in pre-order; the entries behind them are as the last round left them.
   */
  lemma {:induction false} RoundRanking(s: State, r: Input)
    requires |s.board| == BOARD_SIZE
    ensures var recs := RoundRecords(s, r);
            var m := Min(|recs|, 40);
            var board := WritePass(Scanned(s, r), r).board;
            && IsStableSort(board[..m], recs[..m])
            && board[m..] == s.board[m..]
            && WritePass(Scanned(s, r), r).shown == |recs|
  {
    RoundOffers(s, r);
    BoardIsStableSort(s.board, RoundRecords(s, r));
  }

  /**
   In a round with 40 records or more the list is the true top 40 iff no process visited after
   the first 40 records has more cpu than one of them.
   */
  lemma {:induction false} RoundTopIff(s: State, r: Input)
    requires |s.board| == BOARD_SIZE && |RoundRecords(s, r)| >= 40
    ensures var recs := RoundRecords(s, r);
            TrueTop(WritePass(Scanned(s, r), r).board[..40], recs) <==>
            (forall a, b :: a in recs[..40] && b in recs[40..] ==> !Less(a.cpu, b.cpu))
  {
    RoundOffers(s, r);
    TrueTopIff(s.board, RoundRecords(s, r));
  }

  // ------------------------------------------------------ one row a process

  /** Each entry's samples are of its own process, or cleared. */
  ghost predicate EntriesNamed(m: Entries) {
    forall k :: k in m ==> SlotsNamed(m[k].slots, k)
  }

  predicate SlotsNamed(s: Slots, k: int) {
    (s.first.pid == 0 || s.first.pid == k) && (s.second.pid == 0 || s.second.pid == k)
  }

  lemma {:induction false} ScanKeepsNamed(m: Entries, curr: bool, listing: seq<Probe>)
    requires EntriesNamed(m)
    ensures EntriesNamed(Scan(m, curr, listing))
    ensures Scan(m, curr, listing).Keys == m.Keys + set k | k in Pids(listing)
  {
    if listing == [] {
      assert Pids(listing) == [];
    } else {
      var n := |listing| - 1;
      ScanKeepsNamed(m, curr, listing[..n]);
      assert Pids(listing) == Pids(listing[..n]) + [listing[n].pid];
    }
  }

  lemma {:induction false} SettleKeepsNamed(m: Entries, curr: bool)
    requires EntriesNamed(m)
    ensures EntriesNamed(SettleAll(m, curr)) && SettleAll(m, curr).Keys == m.Keys
  {
  }

  /** What holds of every state of a run. */
  ghost predicate Sound(s: State) {
    && |s.board| == BOARD_SIZE
    && Avl(s.tree) && Keys(s.tree) == s.entries.Keys && EntriesNamed(s.entries)
  }

  lemma {:induction false} ScannedSound(s: State, r: Input)
    requires Sound(s)
    ensures Sound(Scanned(s, r))
  {
    InsertAllOk(s.tree, Pids(r.listing));
    ScanKeepsNamed(s.entries, s.curr, r.listing);
  }

  lemma {:induction false} StepSound(s: State, r: Input)
    requires Sound(s)
    ensures Sound(Step(s, r))
  {
    ScannedSound(s, r);
    SettleKeepsNamed(Scanned(s, r).entries, s.curr);
  }

  /**
   On every run the tree is an AVL search tree whose keys are those of the entries, which
   hold samples of their own process only.
   */
  lemma {:induction false} RunSound(s: State, rs: seq<Input>)
    requires Sound(s)
    ensures Sound(Run(s, rs))
  {
    if rs != [] {
      RunSound(s, rs[..|rs| - 1]);
      StepSound(Run(s, rs[..|rs| - 1]), rs[|rs| - 1]);
    }
  }

  function SetOf(xs: seq<int>): set<int> {
    set x | x in xs
  }

  /** The processes that were listed in any of the rounds. */
  function Listed(rs: seq<Input>): set<int> {
    if rs == [] then {} else Listed(rs[..|rs| - 1]) + SetOf(Pids(rs[|rs| - 1].listing))
  }

  /** A run adds to the tree exactly the processes that were listed. */
  lemma {:induction false} RunKeys(s: State, rs: seq<Input>)
    requires Sound(s)
    ensures Keys(Run(s, rs).tree) == Keys(s.tree) + Listed(rs)
  {
    if rs != [] {
      var n := |rs| - 1;
      RunKeys(s, rs[..n]);
      RunSound(s, rs[..n]);
      InsertAllOk(Run(s, rs[..n]).tree, Pids(rs[n].listing));
    }
  }

  lemma {:induction false} InitialSound(board: seq<ProcessInfo>)
    requires |board| == BOARD_SIZE
    ensures Sound(Initial(board))
  {
  }

  /** The keys of the active processes. */
  function ActiveKeys(keys: seq<int>, m: Entries, curr: bool): seq<int> {
    if keys == [] then []
    else (if Active(Lookup(m, keys[0]).slots, curr) then [keys[0]] else []) + ActiveKeys(keys[1..], m, curr)
  }

  function PidsOf(rows: seq<ProcessInfo>): seq<int> {
    seq(|rows|, i requires 0 <= i < |rows| => rows[i].pid)
  }

  lemma {:induction false} RowsAreOfActiveKeys(keys: seq<int>, m: Entries, f: Frame)
    requires EntriesNamed(m)
    ensures PidsOf(RowsOf(keys, m, f)) == ActiveKeys(keys, m, f.curr)
    ensures forall i :: 0 <= i < |RowsOf(keys, m, f)| ==> RowsOf(keys, m, f)[i].time == f.time
  {
    if keys != [] {
      RowsAreOfActiveKeys(keys[1..], m, f);
      var s := Lookup(m, keys[0]).slots;
      var rest := RowsOf(keys[1..], m, f);
      if Active(s, f.curr) {
        assert s.Get(f.curr).pid == keys[0];
        assert RowsOf(keys, m, f) == [RowOf(s, f)] + rest;
        assert PidsOf([RowOf(s, f)] + rest) == [keys[0]] + PidsOf(rest);
      } else {
        assert RowsOf(keys, m, f) == rest;
        assert ActiveKeys(keys, m, f.curr) == ActiveKeys(keys[1..], m, f.curr);
      }
    }
  }

  lemma {:induction false} ActiveKeysDistinct(keys: seq<int>, m: Entries, curr: bool)
    requires NoDuplicates(keys)
    ensures NoDuplicates(ActiveKeys(keys, m, curr))
    ensures forall k :: k in ActiveKeys(keys, m, curr) <==> k in keys && Active(Lookup(m, k).slots, curr)
  {
    if keys != [] {
      ActiveKeysDistinct(keys[1..], m, curr);
      var rest := ActiveKeys(keys[1..], m, curr);
      assert keys == [keys[0]] + keys[1..];
      assert keys[0] !in keys[1..];
      assert ActiveKeys(keys, m, curr) == (if Active(Lookup(m, keys[0]).slots, curr) then [keys[0]] else []) + rest;
    }
  }

  /**
   A round writes exactly one row for each process that was active, stamped with the time
   of the round, and none for any other.
   */
  lemma {:induction false} OneRowPerActiveProcess(s: State, r: Input)
    requires Sound(s)
    ensures WritePass(Scanned(s, r), r).rows == s.processInfo + RoundRows(s, r)
    ensures NoDuplicates(PidsOf(RoundRows(s, r)))
    ensures forall k :: k in PidsOf(RoundRows(s, r)) <==>
                        k in Scanned(s, r).entries && Active(Scanned(s, r).entries[k].slots, s.curr)
    ensures forall i :: 0 <= i < |RoundRows(s, r)| ==> RoundRows(s, r)[i].time == r.ctime
  {
    var s1 := Scanned(s, r);
    ScannedSound(s, r);
    PreOrderListsKeysOnce(s1.tree);
    WalkRows(Pass(s.processInfo, 0, 0, s.board, 0), PreOrder(s1.tree), s1.entries, FrameOf(s, r));
    RowsAreOfActiveKeys(PreOrder(s1.tree), s1.entries, FrameOf(s, r));
    ActiveKeysDistinct(PreOrder(s1.tree), s1.entries, s.curr);
  }

  lemma {:induction false} RowIsThere(keys: seq<int>, m: Entries, f: Frame, k: int)
    requires k in keys && Active(Lookup(m, k).slots, f.curr)
    ensures RowOf(Lookup(m, k).slots, f) in RowsOf(keys, m, f)
  {
    if keys[0] != k {
      assert keys == [keys[0]] + keys[1..];
      RowIsThere(keys[1..], m, f, k);
    }
  }

  // ------------------------------------------------------------ disk totals

  function NetRead(rows: seq<ProcessInfo>): nat {
    if rows == [] then 0 else rows[0].readBytes + NetRead(rows[1..])
  }

  /** Bytes written and not cancelled; a row never cancels more than it wrote. */
  function NetWritten(rows: seq<ProcessInfo>): int {
    if rows == [] then 0 else rows[0].writeBytes - rows[0].cancelledWriteBytes + NetWritten(rows[1..])
  }

  /**
   The device totals are differences of byte counters cut to 32 bits. For a counter that has
   not gone down, that is the true difference exactly if it has not passed a multiple of
   2^32 in between.
   */
  lemma {:induction false} CutDifferenceExactIff(newval: u64, oldval: u64)
    requires newval >= oldval
    ensures Subcount(Wrap32(newval), Wrap32(oldval)) == newval - oldval <==> newval / TWO32 == oldval / TWO32
  {
    var a, b, q := Wrap32(newval), Wrap32(oldval), newval / TWO32 - oldval / TWO32;
    assert newval - oldval == q * TWO32 + a - b;
    if a < b {
      MultipleGrows(q, TWO32);
      assert Subcount(a, b) == MAXU32VAL - b + a || Subcount(a, b) == MAXU32VAL - b + a + TWO32;
    }
  }

  /**
   What one process adds to the device totals, for any two samples: the differences modulo 2^32,
   and one wrap constant more for each cut counter that has gone down.
   */
  lemma {:induction false} CutTotals(cur: PidStats, prev: PidStats)
    ensures DiskRead(cur, prev) == Wrap32(CutMoved(cur.readBytes, prev.readBytes))
    ensures DiskWritten(cur, prev) ==
            Wrap32(CutMoved(cur.writeBytes, prev.writeBytes)
                   - CutMoved(cur.cancelledWriteBytes, prev.cancelledWriteBytes))
  {
    CutMovedIs(cur.readBytes, prev.readBytes);
    CutMovedIs(cur.writeBytes, prev.writeBytes);
    CutMovedIs(cur.cancelledWriteBytes, prev.cancelledWriteBytes);
    var w, c := CutMoved(cur.writeBytes, prev.writeBytes), CutMoved(cur.cancelledWriteBytes, prev.cancelledWriteBytes);
    AddMultiple(Wrap32(w) - Wrap32(c), w / TWO32 - c / TWO32, TWO32);
    assert Wrap32(w) - Wrap32(c) + (w / TWO32 - c / TWO32) * TWO32 == w - c;
  }

  function CutMoved(newval: u64, oldval: u64): int {
    newval - oldval + if newval % TWO32 < oldval % TWO32 then MAXU32VAL else 0
  }

  lemma {:induction false} CutMovedIs(newval: u64, oldval: u64)
    ensures Subcount(Wrap32(newval), Wrap32(oldval)) == Wrap32(CutMoved(newval, oldval))
  {
    var a, b, q := Wrap32(newval), Wrap32(oldval), newval / TWO32 - oldval / TWO32;
    assert newval - oldval == a - b + q * TWO32;
    if a < b {
      AddMultiple(a - b + MAXU32VAL, q, TWO32);
    } else {
      AddMultiple(a - b, q, TWO32);
    }
  }

  predicate Grew(newval: u64, oldval: u64) {
    newval >= oldval && newval / TWO32 == oldval / TWO32
  }

  /** Byte counters that only grow, pass no multiple of 2^32, and cancel no more than was written. */
  predicate BytesInOrder(s: Slots, curr: bool) {
    var cur, prev := s.Get(curr), s.Get(!curr);
    && Grew(cur.readBytes, prev.readBytes)
    && Grew(cur.writeBytes, prev.writeBytes)
    && Grew(cur.cancelledWriteBytes, prev.cancelledWriteBytes)
    && cur.cancelledWriteBytes - prev.cancelledWriteBytes <= cur.writeBytes - prev.writeBytes
  }

  ghost predicate AllBytesInOrder(keys: seq<int>, m: Entries, curr: bool) {
    forall k :: k in keys && Active(Lookup(m, k).slots, curr) ==> BytesInOrder(Lookup(m, k).slots, curr)
  }

  lemma {:induction false} RowBytes(s: Slots, f: Frame)
    requires BytesInOrder(s, f.curr)
    ensures RowOf(s, f).readBytes == DiskRead(s.Get(f.curr), s.Get(!f.curr))
    ensures RowOf(s, f).writeBytes - RowOf(s, f).cancelledWriteBytes == DiskWritten(s.Get(f.curr), s.Get(!f.curr))
  {
    var cur, prev := s.Get(f.curr), s.Get(!f.curr);
    CutDifferenceExactIff(cur.readBytes, prev.readBytes);
    CutDifferenceExactIff(cur.writeBytes, prev.writeBytes);
    CutDifferenceExactIff(cur.cancelledWriteBytes, prev.cancelledWriteBytes);
    NoWrap(Subcount(Wrap32(cur.writeBytes), Wrap32(prev.writeBytes))
           - Subcount(Wrap32(cur.cancelledWriteBytes), Wrap32(prev.cancelledWriteBytes)));
  }

  lemma {:induction false} NoWrap(x: int)
    ensures 0 <= x < TWO32 ==> Wrap32(x) == x
  {
  }

  lemma {:induction false} SumsOfRows(keys: seq<int>, m: Entries, f: Frame)
    requires AllBytesInOrder(keys, m, f.curr)
    ensures ReadSum(keys, m, f.curr) == NetRead(RowsOf(keys, m, f)) <= |RowsOf(keys, m, f)| * TWO32
    ensures WrittenSum(keys, m, f.curr) == NetWritten(RowsOf(keys, m, f)) <= |RowsOf(keys, m, f)| * TWO32
  {
    if keys != [] {
      SumsOfRows(keys[1..], m, f);
      var s := Lookup(m, keys[0]).slots;
      var rest := RowsOf(keys[1..], m, f);
      if Active(s, f.curr) {
        RowBytes(s, f);
        assert ([RowOf(s, f)] + rest)[1..] == rest;
      } else {
        assert [] + rest == rest;
      }
    }
  }

  /**
   The disk totals of a round are the sums over its rows, provided the counters of the
   active processes are in order and there are fewer than 2^32 of them.
   */
  lemma {:induction false} DiskTotalsAreSums(s: State, r: Input)
    requires |s.board| == BOARD_SIZE && |RoundRows(s, r)| < TWO32
    requires AllBytesInOrder(PreOrder(Scanned(s, r).tree), Scanned(s, r).entries, s.curr)
    ensures WritePass(Scanned(s, r), r).diskRead == NetRead(RoundRows(s, r))
    ensures WritePass(Scanned(s, r), r).diskWritten == NetWritten(RoundRows(s, r))
  {
    var s1 := Scanned(s, r);
    var keys, f := PreOrder(s1.tree), FrameOf(s, r);
    WalkTotals(Pass(s.processInfo, 0, 0, s.board, 0), keys, s1.entries, f, 0, 0);
    SumsOfRows(keys, s1.entries, f);
    FitsIn64(|RoundRows(s, r)|, NetRead(RoundRows(s, r)));
    FitsIn64(|RoundRows(s, r)|, NetWritten(RoundRows(s, r)));
  }

  lemma {:induction false} FitsIn64(n: nat, sum: int)
    requires n < TWO32
    ensures 0 <= sum <= n * TWO32 ==> Wrap64(sum) == sum
  {
    assert n * TWO32 <= (TWO32 - 1) * TWO32 < TWO64;
  }

  // ---------------------------------------------------------- the user column

  lemma {:induction false} PercentInjective(a: nat, b: nat, itv: nat)
    requires itv > 0 && Percent(a, itv) == Percent(b, itv)
    ensures a == b
  {
    PercentOrder(a, b, itv);
    PercentOrder(b, a, itv);
  }

  /**
   The column for user time should hold user time without guest time. It is right only for
   a process that used none: the code subtracts the sample of user time from itself.
   */
  lemma {:induction false} UserColumnRightIff(cur: PidStats, prev: PidStats, time: int, itv: u64)
    requires itv > 0 && prev.utime <= cur.utime && prev.gtime <= cur.gtime
    requires cur.gtime - prev.gtime <= cur.utime - prev.utime
    ensures MakeRow(cur, prev, time, itv).utime == Percent(cur.utime - prev.utime - (cur.gtime - prev.gtime), itv)
            <==> cur.utime == prev.utime
  {
    var g, u := cur.gtime - prev.gtime, cur.utime - prev.utime;
    var shown := Wrap64(0 - g);
    assert shown == if g == 0 then 0 else TWO64 - g;
    if Percent(shown, itv) == Percent(u - g, itv) {
      PercentInjective(shown, u - g, itv);
    }
  }

  lemma {:induction false} PercentAdds(a: nat, b: nat, itv: nat)
    requires itv > 0
    ensures Percent(a + b, itv) == Add(Percent(a, itv), Percent(b, itv))
  {
    PercentValue(a, itv);
    PercentValue(b, itv);
    PercentValue(a + b, itv);
    var share := 100.0 / itv as real;
    assert (a + b) as real * share == a as real * share + b as real * share;
  }

  /**
   The other columns for time: with the sample of user time right, guest and system time
   never exceed the cpu column, and fill it exactly for a process that only ran guests.
   */
  lemma {:induction false} GuestAndSystemWithinCpu(cur: PidStats, prev: PidStats, time: int, itv: u64)
    requires itv > 0 && prev.utime <= cur.utime && prev.stime <= cur.stime && prev.gtime <= cur.gtime
    requires cur.gtime - prev.gtime <= cur.utime - prev.utime
    requires cur.utime - prev.utime + cur.stime - prev.stime < TWO64
    ensures var row := MakeRow(cur, prev, time, itv);
            && row.cpu == Add(Percent(cur.utime - prev.utime, itv), row.stime)
            && !Less(row.cpu, Add(row.gtime, row.stime))
            && (row.cpu == Add(row.gtime, row.stime) <==> cur.gtime - prev.gtime == cur.utime - prev.utime)
  {
    var u, g, k := cur.utime - prev.utime, cur.gtime - prev.gtime, cur.stime - prev.stime;
    CpuTicksExact(cur, prev);
    PercentAdds(u, k, itv);
    PercentAdds(g, k, itv);
    PercentOrder(u + k, g + k, itv);
    if Percent(u + k, itv) == Percent(g + k, itv) {
      PercentInjective(u + k, g + k, itv);
    }
  }

  lemma {:induction false} CpuTicksExact(cur: PidStats, prev: PidStats)
    requires prev.utime <= cur.utime && prev.stime <= cur.stime
    requires cur.utime - prev.utime + cur.stime - prev.stime < TWO64
    ensures CpuTicks(cur, prev) == cur.utime - prev.utime + cur.stime - prev.stime
  {
  }
}
