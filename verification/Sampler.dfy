/**
 src/ptop.c on the heap: the tree of processes, the samples of the system, the ranked
 list and the tables, and the round that reads and writes them all. The contracts tie
 each method to its function in module `Rounds`.
 */
module Sampler {
  import opened Counters
  import opened Samples
  import opened Tables
  import opened Ranking
  import opened AvlShape
  import opened AvlTree
  import opened Kernel
  import opened Rounds

  class Sampler {
    var tree: AvlNode?
    const sysStats: array<SysInfo>
    const pstList: array<ProcessInfo>
    const db: Database
    const sys: System
    ghost var shape: Tree
    ghost var nodes: Nodes

    /** The globals before the first round: no tree, samples cleared. */
    constructor (system: System, database: Database)
      requires Devices(system.open) == system.open
      ensures Valid() && shape == Nil && nodes == map[] && sys == system && db == database
      ensures fresh(sysStats) && fresh(pstList)
      ensures forall i :: 0 <= i < sysStats.Length ==> sysStats[i] == NO_SYS_INFO
      ensures forall i :: 0 <= i < pstList.Length ==> pstList[i] == NO_PROCESS_INFO
    {
      tree, shape, nodes := null, Nil, map[];
      sysStats := new SysInfo[3](_ => NO_SYS_INFO);
      pstList := new ProcessInfo[BOARD_SIZE](_ => NO_PROCESS_INFO);
      db := database;
      sys := system;
      new;
      assert forall d :: d in system.open ==> d in Devices(system.open);
    }

    // ---------------------------------------------------------- the tree

    ghost predicate TreeValid()
      reads this`tree, this`shape, this`nodes
      reads Footprint(shape, nodes)`left, Footprint(shape, nodes)`right, Footprint(shape, nodes)`height
    {
      && Linked(tree, shape, nodes) && Named(nodes)
      && Avl(shape) && nodes.Keys == Keys(shape)
    }

    ghost predicate Valid()
      reads this, nodes.Values`fd, sys`open
      reads Footprint(shape, nodes)`left, Footprint(shape, nodes)`right, Footprint(shape, nodes)`height
    {
      && TreeValid()
      && CountersExact(nodes, nodes.Keys, sys.open)
      && sysStats.Length == 3 && pstList.Length == BOARD_SIZE
    }

    static ghost function EntryOf(n: AvlNode): Entry
      reads n`fd, n`slots
    {
      Entry(n.fd > 0, n.slots)
    }

    ghost function TreeEntries(): Entries
      reads this`nodes, nodes.Values`fd, nodes.Values`slots
    {
      map k | k in nodes :: EntryOf(nodes[k])
    }

    /** Every node that was in the tree is still there, under its key. */
    twostate predicate PositionsStable()
      reads this
    {
      && (forall k :: k in old(nodes) ==> k in nodes && nodes[k] == old(nodes)[k])
      && (forall k :: k in nodes && k !in old(nodes) ==> fresh(nodes[k]))
    }

    // ------------------------------------------------------------ reading

    /** `read_proc_pid_mem`: the one place where the counter of a process is opened. */
    method ReadProcPidMem(p: AvlNode, pst: PidStats, active: int, granted: bool, count: u64)
      returns (r: PidStats)
      requires Named(nodes) && p.element in nodes && nodes[p.element] == p
      requires CountersExact(nodes, nodes.Keys, sys.open)
      modifies p`fd, sys`open
      ensures CountersExact(nodes, nodes.Keys, sys.open)
      ensures Devices(sys.open) == old(Devices(sys.open))
      ensures p.fd > 0 <==> old(p.fd) > 0 || (active != 0 && granted)
      ensures r == pst.(cpuAccesses := if p.fd > 0 then count else 0)
    {
      if active != 0 && p.fd <= 0 {
        p.fd := sys.PerfEventOpen(Process(p.element), granted);
      }
      r := pst.(cpuAccesses := if p.fd > 0 then count else 0);
    }

    /** `read_pid_stats`. */
    method ReadPidStats(p: AvlNode, curr: bool, probe: Probe) returns (failed: bool)
      requires Named(nodes) && p.element in nodes && nodes[p.element] == p
      requires CountersExact(nodes, nodes.Keys, sys.open)
      modifies p`fd, p`slots, sys`open
      ensures CountersExact(nodes, nodes.Keys, sys.open)
      ensures Devices(sys.open) == old(Devices(sys.open))
      ensures failed == !probe.alive
      ensures failed ==> p.fd == old(p.fd) && p.slots == old(p.slots).Set(curr, probe.sample)
      ensures !failed ==> EntryOf(p) == ProbeEntry(old(EntryOf(p)), curr, probe)
    {
      p.slots := p.slots.Set(curr, ZERO_STATS);
      if !probe.alive {
        p.slots := p.slots.Set(curr, probe.sample);
        return true;
      }
      var active := IsActive(p.slots.Get(!curr), Read(probe));
      var pst := ReadProcPidMem(p, Read(probe), active, probe.granted, probe.count);
      p.slots := p.slots.Set(curr, pst);
      return false;
    }

    /** The read of one process, with the reset of the pid when the process has gone. */
    method ReadInto(p: AvlNode, curr: bool, probe: Probe)
      requires Named(nodes) && p.element in nodes && nodes[p.element] == p
      requires CountersExact(nodes, nodes.Keys, sys.open)
      modifies p`fd, p`slots, sys`open
      ensures CountersExact(nodes, nodes.Keys, sys.open)
      ensures Devices(sys.open) == old(Devices(sys.open))
      ensures EntryOf(p) == ProbeEntry(old(EntryOf(p)), curr, probe)
    {
      var failed := ReadPidStats(p, curr, probe);
      if failed {
        p.slots := p.slots.Set(curr, p.slots.Get(curr).(pid := 0));
      }
    }

    /** Another node in the tree: one entry more, and the counters are as exact as before. */
    twostate lemma {:induction false} NodeAdded(pid: int)
      requires pid !in old(nodes) && pid in nodes && nodes == old(nodes)[pid := nodes[pid]]
      requires forall k :: k in old(nodes) ==> nodes[k].fd == old(nodes[k].fd) && nodes[k].slots == old(nodes[k].slots)
      requires nodes[pid].fd == -1 && nodes[pid].slots == ZERO_SLOTS
      requires sys.open == old(sys.open) && old(CountersExact(nodes, nodes.Keys, sys.open))
      ensures TreeEntries() == old(TreeEntries())[pid := NEW_ENTRY]
      ensures CountersExact(nodes, nodes.Keys, sys.open)
    {
      forall k | k in nodes
        ensures TreeEntries()[k] == if k == pid then NEW_ENTRY else old(TreeEntries())[k]
      {
      }
      forall d | d in sys.open && sys.open[d].Process?
        ensures sys.open[d].pid in nodes && nodes[sys.open[d].pid].fd == d
      {
        assert sys.open[d].pid in old(nodes);
      }
    }

    method SetTree(r: AvlNode, ghost grown: Tree, ghost named: Nodes)
      requires Linked(r, grown, named) && Named(named) && Avl(grown) && named.Keys == Keys(grown)
      modifies this`tree, this`shape, this`nodes
      ensures TreeValid() && tree == r && shape == grown && nodes == named
    {
      tree, shape, nodes := r, grown, named;
    }

    method GrowTree(pid: int) returns (position: AvlNode)
      requires TreeValid() && pid !in nodes
      modifies this`tree, this`shape, this`nodes
      modifies Footprint(shape, nodes)`left, Footprint(shape, nodes)`right, Footprint(shape, nodes)`height
      ensures TreeValid()
      ensures shape == InsertTree(old(shape), pid)
      ensures fresh(position) && position.fd == -1 && position.slots == ZERO_SLOTS
      ensures nodes == old(nodes)[pid := position]
    {
      InsertOk(shape, pid);
      InsertBalances(shape, pid);
      var r, np;
      ghost var named;
      r, np, named := Insert(pid, -1, tree, null, shape, nodes);
      SetTree(r, InsertTree(shape, pid), named);
      position := np;
    }

    /** The insertion of a process seen for the first time. */
    method AddNode(pid: int) returns (position: AvlNode)
      requires Valid() && pid !in nodes
      modifies this`tree, this`shape, this`nodes
      modifies Footprint(shape, nodes)`left, Footprint(shape, nodes)`right, Footprint(shape, nodes)`height
      ensures Valid() && PositionsStable()
      ensures shape == InsertTree(old(shape), pid)
      ensures pid in nodes && position == nodes[pid]
      ensures TreeEntries() == old(TreeEntries())[pid := NEW_ENTRY]
    {
      position := GrowTree(pid);
      NodeAdded(pid);
    }

    /** The node of a process, which is created when the process is seen for the first time. */
    method FindOrInsert(pid: int) returns (position: AvlNode)
      requires Valid()
      modifies this`tree, this`shape, this`nodes
      modifies Footprint(shape, nodes)`left, Footprint(shape, nodes)`right, Footprint(shape, nodes)`height
      ensures Valid() && PositionsStable()
      ensures shape == InsertTree(old(shape), pid)
      ensures pid in nodes && position == nodes[pid]
      ensures TreeEntries() == old(TreeEntries())[pid := Lookup(old(TreeEntries()), pid)]
    {
      var found, _ := Find(pid, tree, shape, nodes);
      if found == null {
        position := AddNode(pid);
      } else {
        position := found;
        InsertPresent(shape, pid);
      }
    }

    ghost function NodeOf(t: Tree): AvlNode?
      reads this
    {
      if t.Bin? && t.key in nodes then nodes[t.key] else null
    }

    twostate predicate LinksUnmoved()
      reads this, nodes.Values
    {
      && nodes == old(nodes)
      && forall k :: k in nodes ==> nodes[k].left == old(nodes[k].left)
                                    && nodes[k].right == old(nodes[k].right)
                                    && nodes[k].height == old(nodes[k].height)
    }

    /** Changes to descriptors and samples leave the tree linked. */
    twostate lemma {:induction false} LinkedUnmoved(t: Tree)
      requires LinksUnmoved()
      ensures old(Linked(NodeOf(t), t, nodes)) ==> Linked(NodeOf(t), t, nodes)
      decreases t
    {
      if t.Bin? && old(Linked(NodeOf(t), t, nodes)) {
        assert old(Linked(nodes[t.key].left, t.left, nodes) && Linked(nodes[t.key].right, t.right, nodes));
        assert old(nodes[t.key].left) == NodeOf(t.left);
        assert old(nodes[t.key].right) == NodeOf(t.right);
        LinkedUnmoved(t.left);
        LinkedUnmoved(t.right);
      }
    }

    /** Reading one process leaves the entries of the others alone. */
    twostate lemma {:induction false} OneEntryRead(pid: int)
      requires nodes == old(nodes) && pid in nodes
      requires forall k :: k in nodes && k != pid ==> EntryOf(nodes[k]) == old(EntryOf(nodes[k]))
      ensures TreeEntries() == old(TreeEntries())[pid := EntryOf(nodes[pid])]
    {
      forall k | k in nodes
        ensures TreeEntries()[k] == if k == pid then EntryOf(nodes[pid]) else old(TreeEntries())[k]
      {
      }
    }

    static lemma {:induction false} UpdateTwice(m: Entries, k: int, a: Entry, b: Entry)
      ensures m[k := a][k := b] == m[k := b]
    {
    }

    /** The read of a process whose node is in the tree. */
    method ReadAt(pid: int, position: AvlNode, curr: bool, probe: Probe)
      requires Valid() && pid in nodes && position == nodes[pid]
      modifies position`fd, position`slots, sys`open
      ensures Valid()
      ensures TreeEntries() == old(TreeEntries())[pid := ProbeEntry(old(TreeEntries()[pid]), curr, probe)]
      ensures Devices(sys.open) == old(Devices(sys.open))
    {
      ReadInto(position, curr, probe);
      LinkedUnmoved(shape);
      OneEntryRead(pid);
    }

    /** One entry of the listing: find or insert its node, then read into its slot. */
    method ReadEntry(curr: bool, probe: Probe)
      requires Valid()
      modifies this`tree, this`shape, this`nodes, Footprint(shape, nodes), sys`open
      ensures Valid() && PositionsStable()
      ensures shape == InsertTree(old(shape), probe.pid)
      ensures TreeEntries() ==
              old(TreeEntries())[probe.pid as int := ProbeEntry(Lookup(old(TreeEntries()), probe.pid), curr, probe)]
      ensures Devices(sys.open) == old(Devices(sys.open))
    {
      ghost var was := TreeEntries();
      var position := FindOrInsert(probe.pid);
      ghost var e := Lookup(was, probe.pid);
      assert TreeEntries()[probe.pid] == e;
      ReadAt(probe.pid, position, curr, probe);
      UpdateTwice(was, probe.pid, e, ProbeEntry(e, curr, probe));
    }

    lemma {:induction false} ScanStep(was: Entries, tree0: Tree, curr: bool, listing: seq<Probe>, i: nat)
      requires i < |listing|
      ensures Scan(was, curr, listing[..i + 1]) ==
              var before := Scan(was, curr, listing[..i]);
              before[listing[i].pid as int := ProbeEntry(Lookup(before, listing[i].pid), curr, listing[i])]
      ensures InsertAll(tree0, Pids(listing[..i + 1])) ==
              InsertTree(InsertAll(tree0, Pids(listing[..i])), listing[i].pid)
    {
      assert listing[..i + 1][..i] == listing[..i];
      assert Pids(listing[..i + 1]) == Pids(listing[..i]) + [listing[i].pid];
      InsertAllSnoc(tree0, Pids(listing[..i]), listing[i].pid);
    }

    /** The loop of `read_process_stats` over the entries of /proc. */
    method ReadListing(curr: bool, listing: seq<Probe>)
      requires Valid()
      modifies this`tree, this`shape, this`nodes, Footprint(shape, nodes), sys`open
      ensures Valid() && PositionsStable()
      ensures shape == InsertAll(old(shape), Pids(listing))
      ensures TreeEntries() == Scan(old(TreeEntries()), curr, listing)
      ensures Devices(sys.open) == old(Devices(sys.open))
    {
      var i := 0;
      assert Pids(listing[..0]) == [];
      ghost var was := TreeEntries();
      while i < |listing|
        invariant 0 <= i <= |listing|
        invariant Valid() && PositionsStable()
        invariant shape == InsertAll(old(shape), Pids(listing[..i]))
        invariant TreeEntries() == Scan(was, curr, listing[..i])
        invariant Devices(sys.open) == old(Devices(sys.open))
      {
        ReadEntry(curr, listing[i]);
        ScanStep(was, old(shape), curr, listing, i);
        i := i + 1;
      }
      assert listing[..i] == listing;
    }

    /** `read_process_stats`. */
    method ReadProcessStats(curr: bool, cpuLine: CpuLine, listing: seq<Probe>)
      requires Valid()
      modifies this`tree, this`shape, this`nodes, Footprint(shape, nodes), sys`open, sysStats
      ensures Valid() && PositionsStable()
      ensures shape == InsertAll(old(shape), Pids(listing))
      ensures TreeEntries() == Scan(old(TreeEntries()), curr, listing)
      ensures Devices(sys.open) == old(Devices(sys.open))
      ensures sysStats[..] == old(sysStats[..])[Index(curr) := ReadStatCpu(old(sysStats[Index(curr)]), cpuLine)]
    {
      sysStats[Index(curr)] := ReadStatCpu(sysStats[Index(curr)], cpuLine);
      ReadListing(curr, listing);
    }

    // ------------------------------------------------------------ writing

    ghost function PassOf(curr: bool, shown: nat): Pass
      requires sysStats.Length == 3
      reads sysStats, pstList, db`processInfo
    {
      var cur := sysStats[Index(curr)];
      Pass(db.processInfo, cur.totaldiskread, cur.totaldiskwrite, pstList[..], shown)
    }

    /** `write_stat` at the node of a process that was active. */
    method WriteActive(p: AvlNode, f: Frame, shown: nat) returns (shown': nat)
      requires Active(p.slots, f.curr)
      requires sysStats.Length == 3 && pstList.Length == BOARD_SIZE
      modifies p`slots, sysStats, pstList, db`processInfo
      ensures PassOf(f.curr, shown') == Visit(old(PassOf(f.curr, shown)), old(p.slots), f)
      ensures p.slots == Settle(old(p.slots), f.curr)
      ensures StatsKept(f.curr)
    {
      shown' := shown;
      var psti, pstj := p.slots.Get(f.curr), p.slots.Get(!f.curr);
      var c := Index(f.curr);
      var st := sysStats[c];
      sysStats[c] := st.(totaldiskread := Wrap64(st.totaldiskread + DiskRead(psti, pstj)),
                         totaldiskwrite := Wrap64(st.totaldiskwrite + DiskWritten(psti, pstj)));
      p.slots := p.slots.Set(f.curr, UndoDips(psti, pstj));
      var row := MakeRow(p.slots.Get(f.curr), pstj, f.time, f.itv);
      if f.screen && Shown(row) {
        AddHigherProcessInfo(pstList, row, if shown >= SHOW_NUM then SHOW_NUM else shown);
        shown' := shown + 1;
      }
      db.InsertPs(row);
    }

    /** `write_stat` at one node. */
    method WriteNode(p: AvlNode, f: Frame, shown: nat) returns (shown': nat)
      requires Named(nodes) && p.element in nodes && nodes[p.element] == p
      requires CountersExact(nodes, nodes.Keys, sys.open)
      requires sysStats.Length == 3 && pstList.Length == BOARD_SIZE
      modifies p`fd, p`slots, sys`open, sysStats, pstList, db`processInfo
      ensures PassOf(f.curr, shown') == Visit(old(PassOf(f.curr, shown)), old(p.slots), f)
      ensures EntryOf(p) == SettleEntry(old(EntryOf(p)), f.curr)
      ensures !Active(old(p.slots), f.curr) ==> p.fd == -1
      ensures OnlyIn({p.element}) && Kept(f.curr)
    {
      if IsActive(p.slots.Get(!f.curr), p.slots.Get(f.curr)) <= 0 {
        ClearPosition(p, sys, nodes);
        shown' := shown;
      } else {
        shown' := WriteActive(p, f, shown);
      }
    }

    /** What the write pass of a subtree starts from. */
    ghost predicate Writable(p: AvlNode?, t: Tree, m: Entries)
      reads this, nodes.Values`fd, sys`open
      reads Footprint(t, nodes)`left, Footprint(t, nodes)`right, Footprint(t, nodes)`height
      reads Footprint(t, nodes)`fd, Footprint(t, nodes)`slots
    {
      && Linked(p, t, nodes) && Named(nodes) && SearchTree(t) && Keys(t) <= Keys(shape) && Holds(t, nodes, m)
      && CountersExact(nodes, nodes.Keys, sys.open)
      && sysStats.Length == 3 && pstList.Length == BOARD_SIZE
    }

    /** What holds of the descriptors and the samples of the system after any part of the pass. */
    twostate predicate Kept(curr: bool)
      requires sysStats.Length == 3
      reads this, nodes.Values`fd, sys`open, sysStats
    {
      && CountersExact(nodes, nodes.Keys, sys.open)
      && Devices(sys.open) == old(Devices(sys.open))
      && StatsKept(curr)
    }

    /** No links or heights have changed, and descriptors and samples at most in the nodes with these keys. */
    twostate predicate OnlyIn(keys: set<int>)
      reads this, nodes.Values
    {
      && LinksUnmoved()
      && forall k :: k in nodes && k !in keys ==>
                       nodes[k].fd == old(nodes[k].fd) && nodes[k].slots == old(nodes[k].slots)
    }

    /** A subtree beside those that were written still holds what it held. */
    twostate lemma {:induction false} HoldsAside(v: View)
      requires OnlyIn(v.written) && v.written !! Keys(v.t)
      ensures old(Holds(v.t, nodes, v.m)) ==> Holds(v.t, nodes, v.m)
      ensures old(HoldsSettled(v.t, nodes, v.m, v.curr)) ==> HoldsSettled(v.t, nodes, v.m, v.curr)
    {
    }

    /**
     `write_stat` on a subtree: its nodes in pre-order, each once. The links are not
     touched; every node below is settled, and one that was not active has lost its
     counter.
     */
    method WriteStat(p: AvlNode, f: Frame, shown: nat, ghost t: Tree, ghost m: Entries) returns (shown': nat)
      requires Writable(p, t, m)
      modifies Footprint(shape, nodes)`fd, Footprint(shape, nodes)`slots
      modifies sys`open, sysStats, pstList, db`processInfo
      ensures PassOf(f.curr, shown') == Walk(old(PassOf(f.curr, shown)), PreOrder(t), m, f)
      ensures HoldsSettled(t, nodes, m, f.curr) && OnlyIn(Keys(t))
      ensures Kept(f.curr)
      decreases t, 3
    {
      KeysApart(t);
      ghost var p0 := PassOf(f.curr, shown);
      shown' := WriteRoot(p, f, shown, t, m);
      shown' := WriteChildren(p, f, shown', t, m);
      WalkPreOrder(p0, t, m, f);
      SettledWhole(t, nodes, m, f.curr);
    }

    /** The node at the root of a subtree, before its children. */
    method WriteRoot(p: AvlNode, f: Frame, shown: nat, ghost t: Tree, ghost m: Entries) returns (shown': nat)
      requires Writable(p, t, m)
      modifies Footprint(shape, nodes)`fd, Footprint(shape, nodes)`slots
      modifies sys`open, sysStats, pstList, db`processInfo
      ensures Writable(p.left, t.left, m) && Writable(p.right, t.right, m)
      ensures t.key in m && NodeSettled(p, m[t.key], f.curr) && OnlyIn({t.key})
      ensures PassOf(f.curr, shown') == Visit(old(PassOf(f.curr, shown)), Lookup(m, t.key).slots, f)
      ensures Kept(f.curr)
    {
      KeysApart(t);
      HoldsParts(t, nodes, m);
      FootprintMember(t.key, shape, nodes);
      shown' := WriteNode(p, f, shown);
      LinkedUnmoved(t);
      HoldsAside(View({t.key}, t.left, m, f.curr));
      HoldsAside(View({t.key}, t.right, m, f.curr));
    }

    /** The two recursive calls of `write_stat`. */
    method WriteChildren(p: AvlNode, f: Frame, shown: nat, ghost t: Tree, ghost m: Entries) returns (shown': nat)
      requires t.Bin? && SearchTree(t)
      requires Writable(p.left, t.left, m) && Writable(p.right, t.right, m)
      modifies Footprint(shape, nodes)`fd, Footprint(shape, nodes)`slots
      modifies sys`open, sysStats, pstList, db`processInfo
      ensures PassOf(f.curr, shown') ==
              Walk(Walk(old(PassOf(f.curr, shown)), PreOrder(t.left), m, f), PreOrder(t.right), m, f)
      ensures HoldsSettled(t.left, nodes, m, f.curr) && HoldsSettled(t.right, nodes, m, f.curr)
      ensures OnlyIn(Keys(t.left) + Keys(t.right))
      ensures Kept(f.curr)
      decreases t, 2
    {
      shown' := WriteLeft(p, f, shown, t, m);
      shown' := WriteRight(p, f, shown', t, m);
    }

    method WriteLeft(p: AvlNode, f: Frame, shown: nat, ghost t: Tree, ghost m: Entries) returns (shown': nat)
      requires t.Bin? && SearchTree(t)
      requires Writable(p.left, t.left, m) && Writable(p.right, t.right, m)
      modifies Footprint(shape, nodes)`fd, Footprint(shape, nodes)`slots
      modifies sys`open, sysStats, pstList, db`processInfo
      ensures Writable(p.right, t.right, m)
      ensures PassOf(f.curr, shown') == Walk(old(PassOf(f.curr, shown)), PreOrder(t.left), m, f)
      ensures HoldsSettled(t.left, nodes, m, f.curr) && OnlyIn(Keys(t.left))
      ensures Kept(f.curr)
      decreases t, 1
    {
      KeysApart(t);
      shown' := WriteChild(p.left, f, shown, t.left, m);
      LinkedUnmoved(t.right);
      HoldsAside(View(Keys(t.left), t.right, m, f.curr));
    }

    method WriteRight(p: AvlNode, f: Frame, shown: nat, ghost t: Tree, ghost m: Entries) returns (shown': nat)
      requires t.Bin? && SearchTree(t)
      requires Writable(p.right, t.right, m) && HoldsSettled(t.left, nodes, m, f.curr)
      modifies Footprint(shape, nodes)`fd, Footprint(shape, nodes)`slots
      modifies sys`open, sysStats, pstList, db`processInfo
      ensures PassOf(f.curr, shown') == Walk(old(PassOf(f.curr, shown)), PreOrder(t.right), m, f)
      ensures HoldsSettled(t.left, nodes, m, f.curr) && HoldsSettled(t.right, nodes, m, f.curr)
      ensures OnlyIn(Keys(t.right))
      ensures Kept(f.curr)
      decreases t, 1
    {
      KeysApart(t);
      shown' := WriteChild(p.right, f, shown, t.right, m);
      HoldsAside(View(Keys(t.right), t.left, m, f.curr));
    }

    method WriteChild(p: AvlNode?, f: Frame, shown: nat, ghost t: Tree, ghost m: Entries) returns (shown': nat)
      requires Writable(p, t, m)
      modifies Footprint(shape, nodes)`fd, Footprint(shape, nodes)`slots
      modifies sys`open, sysStats, pstList, db`processInfo
      ensures PassOf(f.curr, shown') == Walk(old(PassOf(f.curr, shown)), PreOrder(t), m, f)
      ensures HoldsSettled(t, nodes, m, f.curr) && OnlyIn(Keys(t))
      ensures Kept(f.curr)
      decreases t, 4
    {
      shown' := shown;
      if p != null {
        shown' := WriteStat(p, f, shown, t, m);
      }
    }

    lemma {:induction false} SettledEntries(m: Entries, curr: bool)
      requires HoldsSettled(shape, nodes, m, curr) && Keys(shape) == nodes.Keys == m.Keys
      ensures TreeEntries() == SettleAll(m, curr)
      ensures forall k :: k in nodes && !Active(m[k].slots, curr) ==> nodes[k].fd == -1
    {
      forall k | k in nodes
        ensures EntryOf(nodes[k]) == SettleEntry(m[k], curr)
        ensures !Active(m[k].slots, curr) ==> nodes[k].fd == -1
      {
        assert NodeSettled(nodes[k], m[k], curr);
      }
    }

    /** The write pass over the whole tree. */
    method WriteTree(f: Frame) returns (idx: nat)
      requires Valid() && tree != null
      modifies Footprint(shape, nodes)`fd, Footprint(shape, nodes)`slots
      modifies sys`open, sysStats, pstList, db`processInfo
      ensures TreeValid()
      ensures PassOf(f.curr, idx) == Walk(old(PassOf(f.curr, 0)), PreOrder(shape), old(TreeEntries()), f)
      ensures HoldsSettled(shape, nodes, old(TreeEntries()), f.curr)
      ensures Kept(f.curr)
    {
      ghost var m := TreeEntries();
      idx := WriteStat(tree, f, 0, shape, m);
      LinkedUnmoved(shape);
    }

    /** `write_process_stats`: settle every process, and count the records shown, less one. */
    method WriteProcessStats(curr: bool, time: int, screen: bool) returns (amount: int)
      requires Valid() && tree != null
      modifies Footprint(shape, nodes)`fd, Footprint(shape, nodes)`slots
      modifies sys`open, sysStats, pstList, db`processInfo
      ensures Valid() && amount >= -1
      ensures PassOf(curr, amount + 1) ==
              Walk(old(PassOf(curr, 0)), PreOrder(shape), old(TreeEntries()), old(CurrentFrame(curr, time, screen)))
      ensures TreeEntries() == SettleAll(old(TreeEntries()), curr)
      ensures forall k :: k in nodes && !Active(old(TreeEntries())[k].slots, curr) ==> nodes[k].fd == -1
      ensures Devices(sys.open) == old(Devices(sys.open))
      ensures StatsKept(curr)
    {
      ghost var m := TreeEntries();
      var itv := Subcount64(sysStats[Index(curr)].runtime, sysStats[Index(!curr)].runtime);
      var idx := WriteTree(Frame(curr, time, itv, screen));
      SettledEntries(m, curr);
      amount := idx as int - 1;
    }

    /** `itv` is the busy time of the processors since the previous round. */
    ghost function CurrentFrame(curr: bool, time: int, screen: bool): Frame
      requires sysStats.Length == 3
      reads sysStats
    {
      Frame(curr, time, Subcount64(sysStats[Index(curr)].runtime, sysStats[Index(!curr)].runtime), screen)
    }

    /** What does not touch the tree leaves it as it is. */
    twostate lemma {:induction false} TreeAside()
      requires OnlyIn({}) && tree == old(tree) && shape == old(shape) && sys.open == old(sys.open)
      ensures old(TreeValid()) ==> TreeValid()
      ensures old(CountersExact(nodes, nodes.Keys, sys.open)) ==> CountersExact(nodes, nodes.Keys, sys.open)
      ensures TreeEntries() == old(TreeEntries())
    {
      if old(TreeValid()) {
        assert tree == NodeOf(shape);
        LinkedUnmoved(shape);
      }
      forall k | k in nodes
        ensures TreeEntries()[k] == old(TreeEntries())[k]
      {
      }
    }

    /** The fields that `read_system_stats` fills, and its own stamp, which `write_system_stats` replaces. */
    method FillSample(curr: bool, r: Input)
      requires sysStats.Length == 3
      modifies sysStats
      ensures sysStats[..] == old(sysStats[..])[Index(curr) := old(sysStats[Index(curr)]).(
                time := r.stamp, cpupower := r.cpupower, memaccess := r.memaccess,
                totalnetsnd := r.netsnd, totalnetrcv := r.netrcv)]
    {
      var c := Index(curr);
      sysStats[c] := sysStats[c].(time := r.stamp);
      sysStats[c] := sysStats[c].(cpupower := r.cpupower);
      sysStats[c] := sysStats[c].(memaccess := r.memaccess);
      sysStats[c] := sysStats[c].(totalnetsnd := r.netsnd, totalnetrcv := r.netrcv);
    }

    /** `read_system_stats`. */
    method ReadSystemStats(curr: bool, r: Input)
      requires Valid()
      modifies sysStats
      ensures Valid() && TreeEntries() == old(TreeEntries())
      ensures sysStats[..] == old(sysStats[..])[Index(curr) := old(sysStats[Index(curr)]).(
                time := r.stamp, cpupower := r.cpupower, memaccess := r.memaccess,
                totalnetsnd := r.netsnd, totalnetrcv := r.netrcv)]
    {
      FillSample(curr, r);
      TreeAside();
    }

    /** The row of differences, which is put together in the third sample. */
    method InsertDifferences(curr: bool, time: int, amount: int)
      requires sysStats.Length == 3
      modifies sysStats, db`sysInfo
      ensures sysStats[Index(curr)] == old(sysStats[Index(curr)]).(time := time)
      ensures sysStats[Index(!curr)] == old(sysStats[Index(!curr)])
      ensures db.sysInfo == old(db.sysInfo) +
                            [SysRow(old(sysStats[Index(curr)]), old(sysStats[Index(!curr)]), time, amount)]
    {
      var cur, prev := sysStats[Index(curr)].(time := time), sysStats[Index(!curr)];
      sysStats[Index(curr)] := cur;
      var st := cur.(totalnetrcv := Subcount64(cur.totalnetrcv, prev.totalnetrcv));
      st := st.(totalnetsnd := Subcount64(cur.totalnetsnd, prev.totalnetsnd));
      st := st.(itv := Wrap32(Subcount64(cur.itv, prev.itv)));
      st := st.(runtime := Wrap32(Subcount64(cur.runtime, prev.runtime)));
      st := st.(memaccess := Subcount64(cur.memaccess, prev.memaccess));
      st := st.(activeProcessNum := amount);
      sysStats[2] := st;
      db.InsertSysInfo(sysStats[2]);
    }

    /** `write_system_stats`. */
    method WriteSystemStats(curr: bool, time: int, amount: int)
      requires Valid()
      modifies sysStats, db`sysInfo
      ensures Valid() && OnlyIn({}) && TreeEntries() == old(TreeEntries())
      ensures sysStats[Index(curr)] == old(sysStats[Index(curr)]).(time := time)
      ensures sysStats[Index(!curr)] == old(sysStats[Index(!curr)])
      ensures db.sysInfo == old(db.sysInfo) +
                            [SysRow(old(sysStats[Index(curr)]), old(sysStats[Index(!curr)]), time, amount)]
    {
      InsertDifferences(curr, time, amount);
      TreeAside();
    }

    // -------------------------------------------------------------- rounds

    /** The state a round starts from. */
    ghost function Abs(curr: bool, cycle: nat): State
      requires sysStats.Length == 3
      reads this`shape, this`nodes, nodes.Values`fd, nodes.Values`slots, sysStats, pstList, db
    {
      State(shape, TreeEntries(), curr, sysStats[Index(!curr)], pstList[..], cycle, db.processInfo, db.sysInfo)
    }

    /** The reads of a round. */
    method ReadAll(curr: bool, r: Input)
      requires Valid()
      modifies this`tree, this`shape, this`nodes, Footprint(shape, nodes), sys`open, sysStats
      ensures Valid() && PositionsStable()
      ensures shape == InsertAll(old(shape), Pids(r.listing))
      ensures TreeEntries() == Scan(old(TreeEntries()), curr, r.listing)
      ensures Devices(sys.open) == old(Devices(sys.open))
      ensures sysStats[Index(curr)] == SysSample(r).(time := r.stamp)
      ensures sysStats[Index(!curr)] == old(sysStats[Index(!curr)])
    {
      sysStats[Index(curr)] := NO_SYS_INFO;
      ghost var other := sysStats[Index(!curr)];
      ReadProcessStats(curr, r.cpuLine, r.listing);
      assert sysStats[Index(!curr)] == other;
      ReadSystemStats(curr, r);
    }

    /** What holds between the two writes of a round that started from `s`. */
    ghost predicate Midway(curr: bool, r: Input, amount: int, s: State)
      requires sysStats.Length == 3 && |s.board| == BOARD_SIZE
      reads this`shape, this`nodes, nodes.Values`fd, nodes.Values`slots, sysStats, pstList, db
    {
      && s.curr == curr && shape == s.tree && TreeEntries() == SettleAll(s.entries, curr)
      && amount >= -1 && PassOf(curr, amount + 1) == WritePass(s, r)
      && sysStats[Index(curr)] == SampleWithDisk(r, WritePass(s, r)).(time := r.stamp)
      && sysStats[Index(!curr)] == s.last && db.sysInfo == s.sysInfo
    }

    /** No process that was gone or idle, by these entries, has a counter. */
    ghost predicate IdleClosed(m: Entries, curr: bool)
      reads this`nodes, nodes.Values`fd
    {
      forall k :: k in nodes && !Active(Lookup(m, k).slots, curr) ==> nodes[k].fd == -1
    }

    /** The pass over the whole tree is the one that `s` calls for. */
    lemma {:induction false} WholePass(curr: bool, r: Input, s: State)
      requires sysStats.Length == 3 && pstList.Length == BOARD_SIZE && s == Abs(curr, s.cycle)
      requires sysStats[Index(curr)] == SysSample(r).(time := r.stamp)
      ensures Walk(PassOf(curr, 0), PreOrder(shape), TreeEntries(), CurrentFrame(curr, r.ctime, r.screen)) ==
              WritePass(s, r)
    {
      assert PassOf(curr, 0) == Pass(s.processInfo, 0, 0, s.board, 0);
      assert CurrentFrame(curr, r.ctime, r.screen) == FrameOf(s, r);
    }

    /** `write_process_stats` in a round that starts from `s`. */
    method WriteProcesses(curr: bool, r: Input, ghost s: State) returns (amount: int)
      requires Valid() && tree != null && s == Abs(curr, s.cycle)
      requires sysStats[Index(curr)] == SysSample(r).(time := r.stamp)
      modifies Footprint(shape, nodes)`fd, Footprint(shape, nodes)`slots
      modifies sys`open, sysStats, pstList, db`processInfo
      ensures Valid() && Midway(curr, r, amount, s)
      ensures Devices(sys.open) == old(Devices(sys.open))
      ensures IdleClosed(s.entries, curr)
    {
      WholePass(curr, r, s);
      amount := WriteProcessStats(curr, r.ctime, r.screen);
    }

    /** `write_system_stats` at the end of a round that started from `s`. */
    method FinishRound(curr: bool, r: Input, amount: int, ghost s: State)
      requires Valid() && |s.board| == BOARD_SIZE && Midway(curr, r, amount, s)
      modifies sysStats, db`sysInfo
      ensures Valid() && OnlyIn({}) && sys.open == old(sys.open)
      ensures Abs(!curr, s.cycle + 1) == Written(s, r)
    {
      WriteSystemStats(curr, r.ctime, amount);
    }

    /** The writes of a round that starts from `s`. */
    method WriteAll(curr: bool, r: Input, ghost s: State)
      requires Valid() && tree != null && s == Abs(curr, s.cycle)
      requires sysStats[Index(curr)] == SysSample(r).(time := r.stamp)
      modifies Footprint(shape, nodes)`fd, Footprint(shape, nodes)`slots
      modifies sys`open, sysStats, pstList, db
      ensures Valid()
      ensures Devices(sys.open) == old(Devices(sys.open))
      ensures IdleClosed(s.entries, curr)
      ensures Abs(!curr, s.cycle + 1) == Written(s, r)
    {
      var amount := WriteProcesses(curr, r, s);
      FinishRound(curr, r, amount, s);
    }

    lemma {:induction false} Planted(was: Tree, pids: seq<int>)
      requires Linked(tree, shape, nodes) && shape == InsertAll(was, pids)
      requires was.Bin? || pids != []
      ensures tree != null
    {
      InsertAllNonempty(was, pids);
    }

    /** The reads of a round that starts from `s`. */
    method ReadRound(curr: bool, r: Input, ghost s: State)
      requires Valid() && s == Abs(curr, s.cycle)
      requires shape.Bin? || r.listing != []
      modifies this`tree, this`shape, this`nodes, Footprint(shape, nodes), sys`open, sysStats
      ensures Valid() && PositionsStable() && tree != null
      ensures Abs(curr, s.cycle) == Scanned(s, r)
      ensures sysStats[Index(curr)] == SysSample(r).(time := r.stamp)
      ensures Devices(sys.open) == old(Devices(sys.open))
    {
      ReadAll(curr, r);
      Planted(s.tree, Pids(r.listing));
    }

    /** The purge at the end of every 31st round. */
    method PurgeTables(curr: bool, cycle: nat, r: Input, ghost s: State)
      requires Valid() && s == Abs(curr, s.cycle)
      modifies db
      ensures Valid() && OnlyIn({}) && sys.open == old(sys.open)
      ensures Abs(curr, s.cycle) == Purged(s, cycle, r)
    {
      if cycle % CLEAN_INTERVAL == 0 {
        db.FreeupAll(CLEAN_INTERVAL, r.nowPs, r.nowSys);
      }
      TreeAside();
    }

    /** The writes and the purge of a round; `s` is the state after its reads. */
    method WriteRound(curr: bool, cycle: nat, r: Input, ghost s: State)
      requires Valid() && tree != null && s == Abs(curr, s.cycle) && s.cycle == cycle
      requires sysStats[Index(curr)] == SysSample(r).(time := r.stamp)
      modifies Footprint(shape, nodes)`fd, Footprint(shape, nodes)`slots
      modifies sys`open, sysStats, pstList, db
      ensures Valid()
      ensures Devices(sys.open) == old(Devices(sys.open))
      ensures IdleClosed(s.entries, curr)
      ensures Abs(!curr, cycle + 1) == Purged(Written(s, r), cycle, r)
    {
      WriteAll(curr, r, s);
      PurgeTables(!curr, cycle, r, Written(s, r));
    }

    /** One turn of `main_loop`, up to the flip of `curr`. */
    method Round(curr: bool, cycle: nat, r: Input, ghost s: State)
      requires Valid() && s == Abs(curr, s.cycle) && s.cycle == cycle
      requires shape.Bin? || r.listing != []
      modifies this`tree, this`shape, this`nodes, Footprint(shape, nodes), sys`open, sysStats, pstList, db
      ensures Valid() && PositionsStable() && shape.Bin?
      ensures Abs(!curr, cycle + 1) == Step(s, r)
      ensures IdleClosed(Scanned(s, r).entries, curr)
      ensures Devices(sys.open) == old(Devices(sys.open))
    {
      ReadRound(curr, r, s);
      WriteRound(curr, cycle, r, Scanned(s, r));
    }

    /** Round `i` of a run that started from `s0`. */
    method Turn(curr: bool, cycle: nat, rounds: seq<Input>, i: nat, ghost s0: State)
      requires Valid() && i < |rounds| && |s0.board| == BOARD_SIZE
      requires Abs(curr, cycle) == Run(s0, rounds[..i])
      requires shape.Bin? || rounds[i].listing != []
      modifies this`tree, this`shape, this`nodes, Footprint(shape, nodes), sys`open, sysStats, pstList, db
      ensures Valid() && PositionsStable() && shape.Bin?
      ensures Abs(!curr, cycle + 1) == Run(s0, rounds[..i + 1])
      ensures Devices(sys.open) == old(Devices(sys.open))
    {
      Round(curr, cycle, rounds[i], Abs(curr, cycle));
      RunNext(s0, rounds, i);
    }

    /**
     `main_loop` for any number of rounds. Whatever the listings, samples and grants were,
     the tree is a search tree balanced as an AVL tree with exact heights, the open process
     counters are those its nodes hold, no position found earlier has gone, and the
     whole state is that of the run.
     */
    method MainLoop(rounds: seq<Input>) returns (curr: bool, cycle: nat)
      requires Valid()
      requires shape.Bin? || rounds == [] || rounds[0].listing != []
      modifies this`tree, this`shape, this`nodes, Footprint(shape, nodes), sys`open, sysStats, pstList, db
      ensures Valid() && PositionsStable()
      ensures Abs(curr, cycle) == Run(old(Abs(true, 1)), rounds)
      ensures Devices(sys.open) == old(Devices(sys.open))
    {
      curr, cycle := true, 1;
      ghost var s0 := Abs(true, 1);
      var i := 0;
      while i < |rounds|
        invariant 0 <= i <= |rounds|
        invariant Valid() && PositionsStable()
        invariant i < |rounds| ==> shape.Bin? || rounds[i].listing != []
        invariant Abs(curr, cycle) == Run(s0, rounds[..i])
        invariant Devices(sys.open) == old(Devices(sys.open))
      {
        Turn(curr, cycle, rounds, i, s0);
        curr, cycle := !curr, cycle + 1;
        i := i + 1;
      }
      RunWhole(s0, rounds, i);
    }

    /** `system_clean`, second half: close every process counter and free every node. */
    method FreeTree()
      requires Valid() && Footprint(shape, nodes) !! sys.freed
      modifies sys
      ensures sys.open == Devices(old(sys.open))
      ensures sys.freed == old(sys.freed) + Footprint(shape, nodes)
    {
      Empty(tree, sys, shape, nodes.Keys, nodes);
      assert forall d :: d in old(sys.open) && old(sys.open)[d].Process? ==> old(sys.open)[d].pid in nodes.Keys;
    }

    /** Of the samples of the system, only the disk totals of the current one have changed. */
    twostate predicate StatsKept(curr: bool)
      requires sysStats.Length == 3
      reads this, sysStats
    {
      && sysStats[Index(!curr)] == old(sysStats[Index(!curr)])
      && sysStats[Index(curr)] ==
         old(sysStats[Index(curr)]).(totaldiskread := sysStats[Index(curr)].totaldiskread,
                                     totaldiskwrite := sysStats[Index(curr)].totaldiskwrite)
    }
  }

  /** The nodes of `t` hold the entries that `m` gives. */
  ghost predicate Holds(t: Tree, nodes: Nodes, m: Entries)
    reads Footprint(t, nodes)`fd, Footprint(t, nodes)`slots
  {
    && Keys(t) <= nodes.Keys && Keys(t) <= m.Keys
    && forall k :: k in Keys(t) ==> (nodes[k].fd > 0 <==> m[k].counting) && nodes[k].slots == m[k].slots
  }

  /** What the write pass leaves in a node; one that was not active has no counter. */
  ghost predicate NodeSettled(n: AvlNode, e: Entry, curr: bool)
    reads n`fd, n`slots
  {
    && (n.fd > 0 <==> SettleEntry(e, curr).counting)
    && n.slots == Settle(e.slots, curr)
    && (!Active(e.slots, curr) ==> n.fd == -1)
  }

  ghost predicate HoldsSettled(t: Tree, nodes: Nodes, m: Entries, curr: bool)
    reads Footprint(t, nodes)`fd, Footprint(t, nodes)`slots
  {
    && Keys(t) <= nodes.Keys && Keys(t) <= m.Keys
    && forall k :: k in Keys(t) ==> NodeSettled(nodes[k], m[k], curr)
  }

  /** Keys that were written, and a subtree, what it holds, and the current slots. */
  datatype View = View(written: set<int>, t: Tree, m: Entries, curr: bool)

  lemma {:induction false} SettledWhole(t: Tree, nodes: Nodes, m: Entries, curr: bool)
    requires t.Bin? && t.key in nodes && t.key in m && NodeSettled(nodes[t.key], m[t.key], curr)
    requires HoldsSettled(t.left, nodes, m, curr) && HoldsSettled(t.right, nodes, m, curr)
    ensures HoldsSettled(t, nodes, m, curr)
  {
  }

  lemma {:induction false} HoldsParts(t: Tree, nodes: Nodes, m: Entries)
    requires t.Bin? && Holds(t, nodes, m)
    ensures Holds(t.left, nodes, m) && Holds(t.right, nodes, m)
  {
  }

  lemma {:induction false} WalkPreOrder(p: Pass, t: Tree, m: Entries, f: Frame)
    requires |p.board| == BOARD_SIZE && t.Bin?
    ensures Walk(p, PreOrder(t), m, f) ==
            Walk(Walk(Visit(p, Lookup(m, t.key).slots, f), PreOrder(t.left), m, f), PreOrder(t.right), m, f)
  {
    assert PreOrder(t)[1..] == PreOrder(t.left) + PreOrder(t.right);
    WalkConcat(Visit(p, Lookup(m, t.key).slots, f), PreOrder(t.left), PreOrder(t.right), m, f);
  }

  function Index(curr: bool): nat {
    if curr then 1 else 0
  }

  /** `read_stat_cpu`: both sums are stored in 32 bits. */
  function ReadStatCpu(st: SysInfo, line: CpuLine): SysInfo {
    st.(itv := Wrap32(line.Total()), runtime := Wrap32(line.Busy()))
  }
}
