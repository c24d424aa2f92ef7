/**
 src/avltree.c on the heap. A tree of `AvlNode` objects is described by a value `t`
 (its shape, keys only) and a map `nodes` from each key to the node that carries it.

 Keys of a search tree are distinct, so `Linked` says at once that the nodes below the
 root form a tree: acyclic, unshared, with every cached height exact.
 */
module AvlTree {
  import opened Arithmetic
  import opened AvlShape
  import opened Kernel
  import opened Samples

  class AvlNode {
    const element: int
    var fd: int
    var left: AvlNode?
    var right: AvlNode?
    var height: int
    var slots: Slots

    constructor (x: int, fd: int)
      ensures element == x && this.fd == fd && height == 0
      ensures left == null && right == null && slots == ZERO_SLOTS
    {
      element, this.fd, height := x, fd, 0;
      left, right, slots := null, null, ZERO_SLOTS;
    }
  }

  type Nodes = map<int, AvlNode>

  ghost predicate Named(nodes: Nodes) {
    forall k :: k in nodes ==> nodes[k].element == k
  }

  ghost function Footprint(t: Tree, nodes: Nodes): set<AvlNode> {
    set k | k in Keys(t) && k in nodes :: nodes[k]
  }

  ghost predicate Linked(p: AvlNode?, t: Tree, nodes: Nodes)
    reads Footprint(t, nodes)`left, Footprint(t, nodes)`right, Footprint(t, nodes)`height
    decreases t
  {
    match t
    case Nil => p == null
    case Bin(k, l, r) =>
      && k in nodes && p == nodes[k] && p.height == Height(t)
      && Linked(p.left, l, nodes)
      && Linked(p.right, r, nodes)
  }

  /** Linked, but for the root's own cached height, which `insert` brings up to date last. */
  ghost predicate Hangs(p: AvlNode, t: Tree, nodes: Nodes)
    reads Footprint(t, nodes)`left, Footprint(t, nodes)`right, Footprint(t, nodes)`height
  {
    && t.Bin? && t.key in nodes && p == nodes[t.key]
    && Linked(p.left, t.left, nodes)
    && Linked(p.right, t.right, nodes)
  }

  function CachedHeight(p: AvlNode?): int
    reads p
  {
    if p == null then -1 else p.height
  }

  lemma {:induction false} LinkedHeight(p: AvlNode?, t: Tree, nodes: Nodes)
    requires Linked(p, t, nodes)
    ensures CachedHeight(p) == Height(t)
  {
  }

  /** Naming another node for a key outside the tree does not disturb the tree. */
  lemma {:induction false} LinkedElsewhere(p: AvlNode?, t: Tree, nodes: Nodes, x: int, n: AvlNode)
    requires Linked(p, t, nodes) && x !in Keys(t)
    ensures Linked(p, t, nodes[x := n])
    decreases t
  {
    if t.Bin? {
      LinkedElsewhere(p.left, t.left, nodes, x, n);
      LinkedElsewhere(p.right, t.right, nodes, x, n);
    }
  }

  lemma {:induction false} FootprintMember(x: int, t: Tree, nodes: Nodes)
    requires Named(nodes) && x in nodes
    ensures nodes[x] in Footprint(t, nodes) <==> x in Keys(t)
  {
  }

  // ---------------------------------------------------------------- rotations

  /** The two nodes a rotation rewrites lie outside the three subtrees it moves. */
  lemma {:induction false} RotationFrame(x1: int, x2: int, a: Tree, b: Tree, c: Tree, nodes: Nodes)
    requires Named(nodes) && x1 in nodes && x2 in nodes && x1 != x2
    requires x1 !in Keys(a) + Keys(b) + Keys(c) && x2 !in Keys(a) + Keys(b) + Keys(c)
    ensures nodes[x1] != nodes[x2]
    ensures forall s :: s in {a, b, c} ==> nodes[x1] !in Footprint(s, nodes) && nodes[x2] !in Footprint(s, nodes)
  {
  }

  method SingleRotateWithLeft(k2: AvlNode, ghost t: Tree, ghost nodes: Nodes) returns (k1: AvlNode)
    requires Hangs(k2, t, nodes) && Named(nodes) && SearchTree(t)
    requires t.left.Bin?
    modifies Footprint(t, nodes)`left, Footprint(t, nodes)`right, Footprint(t, nodes)`height
    ensures Linked(k1, SingleLeft(t), nodes)
  {
    ghost var Bin(x2, Bin(x1, a, b), c) := t;
    assert x1 in Keys(t.left) && x1 in Keys(t);
    RotationFrame(x1, x2, a, b, c, nodes);
    FootprintMember(x1, t, nodes);
    FootprintMember(x2, t, nodes);
    k1 := k2.left;
    assert Linked(k1, t.left, nodes);
    k2.left := k1.right;
    k1.right := k2;
    assert Linked(k1.left, a, nodes);
    assert Linked(k2.left, b, nodes);
    assert Linked(k2.right, c, nodes);
    k2.height := Max(CachedHeight(k2.left), CachedHeight(k2.right)) + 1;
    k1.height := Max(CachedHeight(k1.left), k2.height) + 1;
  }

  method SingleRotateWithRight(k1: AvlNode, ghost t: Tree, ghost nodes: Nodes) returns (k2: AvlNode)
    requires Hangs(k1, t, nodes) && Named(nodes) && SearchTree(t)
    requires t.right.Bin?
    modifies Footprint(t, nodes)`left, Footprint(t, nodes)`right, Footprint(t, nodes)`height
    ensures Linked(k2, SingleRight(t), nodes)
  {
    ghost var Bin(x1, a, Bin(x2, b, c)) := t;
    assert x2 in Keys(t.right) && x2 in Keys(t);
    RotationFrame(x1, x2, a, b, c, nodes);
    FootprintMember(x1, t, nodes);
    FootprintMember(x2, t, nodes);
    k2 := k1.right;
    assert Linked(k2, t.right, nodes);
    k1.right := k2.left;
    k2.left := k1;
    assert Linked(k1.left, a, nodes);
    assert Linked(k1.right, b, nodes);
    assert Linked(k2.right, c, nodes);
    k1.height := Max(CachedHeight(k1.left), CachedHeight(k1.right)) + 1;
    k2.height := Max(CachedHeight(k2.right), k1.height) + 1;
  }

  /** A node and its two subtrees occupy disjoint memory. */
  lemma {:induction false} NodeFrame(t: Tree, nodes: Nodes)
    requires Named(nodes) && SearchTree(t) && t.Bin? && t.key in nodes
    ensures Footprint(t, nodes) == {nodes[t.key]} + Footprint(t.left, nodes) + Footprint(t.right, nodes)
    ensures nodes[t.key] !in Footprint(t.left, nodes) + Footprint(t.right, nodes)
    ensures Footprint(t.left, nodes) !! Footprint(t.right, nodes)
  {
  }

  method DoubleRotateWithLeft(k3: AvlNode, ghost t: Tree, ghost nodes: Nodes) returns (k2: AvlNode)
    requires Hangs(k3, t, nodes) && Named(nodes) && SearchTree(t)
    requires t.left.Bin? && t.left.right.Bin?
    modifies Footprint(t, nodes)`left, Footprint(t, nodes)`right, Footprint(t, nodes)`height
    ensures Linked(k2, DoubleLeft(t), nodes)
  {
    NodeFrame(t, nodes);
    SingleRightOk(t.left);
    var turned := SingleRotateWithRight(k3.left, t.left, nodes);
    k3.left := turned;
    ghost var u := Bin(t.key, SingleRight(t.left), t.right);
    NodeFrame(u, nodes);
    assert Keys(u) == Keys(t);
    k2 := SingleRotateWithLeft(k3, u, nodes);
  }

  method DoubleRotateWithRight(k1: AvlNode, ghost t: Tree, ghost nodes: Nodes) returns (k2: AvlNode)
    requires Hangs(k1, t, nodes) && Named(nodes) && SearchTree(t)
    requires t.right.Bin? && t.right.left.Bin?
    modifies Footprint(t, nodes)`left, Footprint(t, nodes)`right, Footprint(t, nodes)`height
    ensures Linked(k2, DoubleRight(t), nodes)
  {
    NodeFrame(t, nodes);
    SingleLeftOk(t.right);
    var turned := SingleRotateWithLeft(k1.right, t.right, nodes);
    k1.right := turned;
    ghost var u := Bin(t.key, t.left, SingleLeft(t.right));
    NodeFrame(u, nodes);
    assert Keys(u) == Keys(t);
    k2 := SingleRotateWithRight(k1, u, nodes);
  }

  // ---------------------------------------------------------------- insertion

  /** `nodes'` names every node that `nodes` names, and at most one new node, for `x`. */
  twostate predicate Extends(nodes: Nodes, x: int, new nodes': Nodes) {
    if x in nodes then nodes' == nodes
    else x in nodes' && fresh(nodes'[x]) && nodes'[x].element == x && nodes' == nodes[x := nodes'[x]]
  }

  /** The memory of a tree after `x` went into one of its subtrees: at most one node more. */
  lemma {:induction false} InsertFrame(t: Tree, nodes: Nodes, u: Tree, nodes': Nodes, x: int)
    requires if x in nodes then nodes' == nodes else x in nodes' && nodes' == nodes[x := nodes'[x]]
    requires x in nodes ==> Keys(u) == Keys(t)
    requires x !in nodes ==> Keys(u) == Keys(t) + {x}
    ensures Footprint(u, nodes') <= Footprint(t, nodes) + (if x in nodes then {} else {nodes'[x]})
  {
  }

  /** `t` with `x` already inserted below its left child, before the repair. */
  lemma {:induction false} InsertedLeft(t: Tree, x: int) returns (u: Tree)
    requires Avl(t) && t.Bin? && x < t.key
    ensures u == Bin(t.key, InsertTree(t.left, x), t.right)
    ensures SearchTree(u) && Balanced(u.left) && Grown(u.left, Height(t.left), x)
    ensures Keys(u) == Keys(t) + {x}
    ensures x in Keys(t) ==> Keys(u) == Keys(t)
  {
    u := Bin(t.key, InsertTree(t.left, x), t.right);
    InsertOk(t.left, x);
    InsertBalances(t.left, x);
  }

  lemma {:induction false} InsertedRight(t: Tree, x: int) returns (u: Tree)
    requires Avl(t) && t.Bin? && x > t.key
    ensures u == Bin(t.key, t.left, InsertTree(t.right, x))
    ensures SearchTree(u) && Balanced(u.right) && Grown(u.right, Height(t.right), x)
    ensures Keys(u) == Keys(t) + {x}
    ensures x in Keys(t) ==> Keys(u) == Keys(t)
  {
    u := Bin(t.key, t.left, InsertTree(t.right, x));
    InsertOk(t.right, x);
    InsertBalances(t.right, x);
  }

  /** The last statement of `insert`: refresh the root's cached height. */
  method RefreshHeight(r: AvlNode, ghost t: Tree, ghost nodes: Nodes)
    requires Hangs(r, t, nodes) && Named(nodes) && SearchTree(t)
    modifies r`height
    ensures Linked(r, t, nodes)
  {
    NodeFrame(t, nodes);
    LinkedHeight(r.left, t.left, nodes);
    LinkedHeight(r.right, t.right, nodes);
    r.height := Max(CachedHeight(r.left), CachedHeight(r.right)) + 1;
  }

  lemma {:induction false} FixKeyFrame(t: Tree, u: Tree, nodes: Nodes)
    requires u.Bin? && Keys(u) == Keys(t) && u.key in nodes
    ensures nodes[u.key] in Footprint(t, nodes)
  {
    assert u.key in Keys(t);
  }

  /** The end of the left branch of `insert`: test the difference against 2, rotate. */
  method RebalanceLeft(root: AvlNode, x: int, ghost t: Tree, ghost was: int, ghost nodes: Nodes)
    returns (r: AvlNode)
    requires Hangs(root, t, nodes) && Named(nodes) && SearchTree(t)
    requires x < t.key && Balanced(t.left) && Balanced(t.right)
    requires -1 <= was - Height(t.right) <= 1 && Grown(t.left, was, x)
    modifies Footprint(t, nodes)`left, Footprint(t, nodes)`right, Footprint(t, nodes)`height
    ensures Linked(r, FixLeft(t, x), nodes)
  {
    FixLeftBalances(t, was, x);
    FixLeftKeeps(t, x);
    LinkedHeight(root.left, t.left, nodes);
    LinkedHeight(root.right, t.right, nodes);
    r := root;
    if CachedHeight(root.left) - CachedHeight(root.right) == 2 {
      assert LeansTowards(t.left, x);
      if x < root.left.element {
        r := SingleRotateWithLeft(root, t, nodes);
      } else {
        r := DoubleRotateWithLeft(root, t, nodes);
      }
    }
    FixKeyFrame(t, FixLeft(t, x), nodes);
    RefreshHeight(r, FixLeft(t, x), nodes);
  }

  method RebalanceRight(root: AvlNode, x: int, ghost t: Tree, ghost was: int, ghost nodes: Nodes)
    returns (r: AvlNode)
    requires Hangs(root, t, nodes) && Named(nodes) && SearchTree(t)
    requires x > t.key && Balanced(t.left) && Balanced(t.right)
    requires -1 <= was - Height(t.left) <= 1 && Grown(t.right, was, x)
    modifies Footprint(t, nodes)`left, Footprint(t, nodes)`right, Footprint(t, nodes)`height
    ensures Linked(r, FixRight(t, x), nodes)
  {
    FixRightBalances(t, was, x);
    FixRightKeeps(t, x);
    LinkedHeight(root.left, t.left, nodes);
    LinkedHeight(root.right, t.right, nodes);
    r := root;
    if CachedHeight(root.right) - CachedHeight(root.left) == 2 {
      assert LeansTowards(t.right, x);
      if x > root.right.element {
        r := SingleRotateWithRight(root, t, nodes);
      } else {
        r := DoubleRotateWithRight(root, t, nodes);
      }
    }
    FixKeyFrame(t, FixRight(t, x), nodes);
    RefreshHeight(r, FixRight(t, x), nodes);
  }

  /**
   `insert`. The tree below the root becomes `InsertTree` of what it was. Every node
   already in the tree stays in it under its key, with its descriptor and its samples;
   `np` changes only when a node is created.
   */
  method Insert(x: int, fd: int, root: AvlNode?, np: AvlNode?, ghost t: Tree, ghost nodes: Nodes)
    returns (r: AvlNode, p: AvlNode?, ghost nodes': Nodes)
    requires Linked(root, t, nodes) && Named(nodes) && Avl(t)
    requires x in nodes <==> x in Keys(t)
    modifies Footprint(t, nodes)`left, Footprint(t, nodes)`right, Footprint(t, nodes)`height
    ensures Linked(r, InsertTree(t, x), nodes') && Named(nodes')
    ensures Extends(nodes, x, nodes')
    ensures p == if x in nodes then np else nodes'[x]
    ensures x !in nodes ==> p.fd == fd && p.slots == ZERO_SLOTS
    decreases t
  {
    InsertOk(t, x);
    InsertBalances(t, x);
    nodes' := nodes;
    p := np;
    if root == null {
      r := new AvlNode(x, fd);
      p := r;
      nodes' := nodes[x := r];
      RefreshHeight(r, InsertTree(t, x), nodes');
    } else if x < root.element {
      r, p, nodes' := InsertLeft(x, fd, root, np, t, nodes);
    } else if x > root.element {
      r, p, nodes' := InsertRight(x, fd, root, np, t, nodes);
    } else {
      r := root;
      NodeFrame(t, nodes);
      RefreshHeight(r, t, nodes);
    }
  }

  /** The recursive call on the left child, and the child pointer it updates. */
  method DescendLeft(x: int, fd: int, root: AvlNode, np: AvlNode?, ghost t: Tree, ghost nodes: Nodes)
    returns (p: AvlNode?, ghost nodes': Nodes)
    requires Linked(root, t, nodes) && Named(nodes) && Avl(t)
    requires x in nodes <==> x in Keys(t)
    requires x < root.element
    modifies Footprint(t, nodes)`left, Footprint(t, nodes)`right, Footprint(t, nodes)`height
    ensures Hangs(root, Bin(t.key, InsertTree(t.left, x), t.right), nodes') && Named(nodes')
    ensures Extends(nodes, x, nodes')
    ensures p == if x in nodes then np else nodes'[x]
    ensures x !in nodes ==> p.fd == fd && p.slots == ZERO_SLOTS
    decreases t, 0
  {
    NodeFrame(t, nodes);
    var child;
    child, p, nodes' := Insert(x, fd, root.left, np, t.left, nodes);
    assert Linked(root.right, t.right, nodes);
    if x !in nodes {
      LinkedElsewhere(root.right, t.right, nodes, x, nodes'[x]);
    }
    ghost var u := InsertedLeft(t, x);
    NodeFrame(u, nodes');
    root.left := child;
  }

  method InsertLeft(x: int, fd: int, root: AvlNode, np: AvlNode?, ghost t: Tree, ghost nodes: Nodes)
    returns (r: AvlNode, p: AvlNode?, ghost nodes': Nodes)
    requires Linked(root, t, nodes) && Named(nodes) && Avl(t)
    requires x in nodes <==> x in Keys(t)
    requires x < root.element
    modifies Footprint(t, nodes)`left, Footprint(t, nodes)`right, Footprint(t, nodes)`height
    ensures Linked(r, InsertTree(t, x), nodes') && Named(nodes')
    ensures Extends(nodes, x, nodes')
    ensures p == if x in nodes then np else nodes'[x]
    ensures x !in nodes ==> p.fd == fd && p.slots == ZERO_SLOTS
    decreases t, 1
  {
    p, nodes' := DescendLeft(x, fd, root, np, t, nodes);
    ghost var u := InsertedLeft(t, x);
    InsertFrame(t, nodes, u, nodes', x);
    r := RebalanceLeft(root, x, u, Height(t.left), nodes');
  }

  /** The recursive call on the right child, and the child pointer it updates. */
  method DescendRight(x: int, fd: int, root: AvlNode, np: AvlNode?, ghost t: Tree, ghost nodes: Nodes)
    returns (p: AvlNode?, ghost nodes': Nodes)
    requires Linked(root, t, nodes) && Named(nodes) && Avl(t)
    requires x in nodes <==> x in Keys(t)
    requires x > root.element
    modifies Footprint(t, nodes)`left, Footprint(t, nodes)`right, Footprint(t, nodes)`height
    ensures Hangs(root, Bin(t.key, t.left, InsertTree(t.right, x)), nodes') && Named(nodes')
    ensures Extends(nodes, x, nodes')
    ensures p == if x in nodes then np else nodes'[x]
    ensures x !in nodes ==> p.fd == fd && p.slots == ZERO_SLOTS
    decreases t, 0
  {
    NodeFrame(t, nodes);
    var child;
    child, p, nodes' := Insert(x, fd, root.right, np, t.right, nodes);
    assert Linked(root.left, t.left, nodes);
    if x !in nodes {
      LinkedElsewhere(root.left, t.left, nodes, x, nodes'[x]);
    }
    ghost var u := InsertedRight(t, x);
    NodeFrame(u, nodes');
    root.right := child;
  }

  method InsertRight(x: int, fd: int, root: AvlNode, np: AvlNode?, ghost t: Tree, ghost nodes: Nodes)
    returns (r: AvlNode, p: AvlNode?, ghost nodes': Nodes)
    requires Linked(root, t, nodes) && Named(nodes) && Avl(t)
    requires x in nodes <==> x in Keys(t)
    requires x > root.element
    modifies Footprint(t, nodes)`left, Footprint(t, nodes)`right, Footprint(t, nodes)`height
    ensures Linked(r, InsertTree(t, x), nodes') && Named(nodes')
    ensures Extends(nodes, x, nodes')
    ensures p == if x in nodes then np else nodes'[x]
    ensures x !in nodes ==> p.fd == fd && p.slots == ZERO_SLOTS
    decreases t, 1
  {
    p, nodes' := DescendRight(x, fd, root, np, t, nodes);
    ghost var u := InsertedRight(t, x);
    InsertFrame(t, nodes, u, nodes', x);
    r := RebalanceRight(root, x, u, Height(t.right), nodes');
  }

  // ------------------------------------------------------------------- lookup

  /** `find` is map lookup, and looks at as many nodes as `FindVisits` says. */
  method Find(x: int, p: AvlNode?, ghost t: Tree, ghost nodes: Nodes) returns (r: AvlNode?, ghost visits: nat)
    requires Linked(p, t, nodes) && Named(nodes) && SearchTree(t)
    ensures x in Keys(t) ==> x in nodes && r == nodes[x]
    ensures x !in Keys(t) ==> r == null
    ensures visits == FindVisits(t, x)
    decreases t
  {
    if p == null {
      return null, 0;
    }
    assert x in Keys(t.left) ==> x < t.key;
    assert x in Keys(t.right) ==> x > t.key;
    if x < p.element {
      r, visits := Find(x, p.left, t.left, nodes);
      visits := visits + 1;
    } else if x > p.element {
      r, visits := Find(x, p.right, t.right, nodes);
      visits := visits + 1;
    } else {
      return p, 1;
    }
  }

  // -------------------------------------------------------- counter descriptors

  /** `open` without the counters of the processes in `gone`. */
  function Without(open: map<int, Target>, gone: set<int>): map<int, Target> {
    map d | d in open && !(open[d].Process? && open[d].pid in gone) :: open[d]
  }

  /** The descriptors that are not counters of processes. */
  function Devices(open: map<int, Target>): map<int, Target> {
    map d | d in open && !open[d].Process? :: open[d]
  }

  lemma {:induction false} WithoutTwice(open: map<int, Target>, a: set<int>, b: set<int>)
    ensures Without(Without(open, a), b) == Without(open, a + b)
  {
  }

  ghost predicate FdExact(k: int, fd: int, open: map<int, Target>) {
    if fd == -1 then forall d :: d in open ==> open[d] != Process(k)
    else fd > 0 && fd in open && open[fd] == Process(k)
  }

  /**
   The open process counters are exactly those the nodes of `live` hold, each counting
   its own node's process; a node without one holds -1.
   */
  ghost predicate CountersExact(nodes: Nodes, live: set<int>, open: map<int, Target>)
    reads nodes.Values`fd
  {
    && live <= nodes.Keys
    && (forall k :: k in live ==> FdExact(k, nodes[k].fd, open))
    && (forall d :: d in open && open[d].Process? ==> open[d].pid in live && nodes[open[d].pid].fd == d)
  }

  /** Distinct nodes hold distinct positive descriptors. */
  lemma {:induction false} CountersDistinct(nodes: Nodes, live: set<int>, open: map<int, Target>, j: int, k: int)
    requires CountersExact(nodes, live, open)
    requires j in live && k in live && j != k && nodes[j].fd > 0
    ensures nodes[j].fd != nodes[k].fd
  {
  }

  /** Closing a node's own descriptor removes the counter of its process and no other. */
  lemma {:induction false} CloseOne(nodes: Nodes, live: set<int>, open: map<int, Target>, k: int)
    requires CountersExact(nodes, live, open) && k in live
    ensures (if nodes[k].fd > 0 then open - {nodes[k].fd} else open) == Without(open, {k})
    ensures CountersExact(nodes, live - {k}, Without(open, {k}))
  {
    var closed := if nodes[k].fd > 0 then open - {nodes[k].fd} else open;
    assert forall d :: d in closed <==> d in Without(open, {k});
  }

  /** `clear_position`: close the node's counter, if it has one. */
  method ClearPosition(p: AvlNode, sys: System, ghost nodes: Nodes)
    requires Named(nodes) && p.element in nodes && nodes[p.element] == p
    requires CountersExact(nodes, nodes.Keys, sys.open)
    modifies p`fd, sys`open
    ensures p.fd == -1
    ensures sys.open == Without(old(sys.open), {p.element})
    ensures CountersExact(nodes, nodes.Keys, sys.open)
  {
    CloseOne(nodes, nodes.Keys, sys.open, p.element);
    if p.fd > 0 {
      sys.Close(p.fd);
    }
    p.fd := -1;
  }

  /**
   `empty`: close the counter of every node and free every node, children first. The
   contracts of `Close` and `Free` make this once each.
   */
  method Empty(p: AvlNode?, sys: System, ghost t: Tree, ghost live: set<int>, ghost nodes: Nodes)
    requires Linked(p, t, nodes) && Named(nodes) && SearchTree(t)
    requires Keys(t) <= live && CountersExact(nodes, live, sys.open)
    requires Footprint(t, nodes) !! sys.freed
    modifies sys
    ensures sys.open == Without(old(sys.open), Keys(t))
    ensures sys.freed == old(sys.freed) + Footprint(t, nodes)
    ensures CountersExact(nodes, live - Keys(t), sys.open)
    decreases t
  {
    if p != null {
      NodeFrame(t, nodes);
      Empty(p.left, sys, t.left, live, nodes);
      KeysApart(t);
      Empty(p.right, sys, t.right, live - Keys(t.left), nodes);
      ghost var rest := live - Keys(t.left) - Keys(t.right);
      CloseOne(nodes, rest, sys.open, t.key);
      if p.fd > 0 {
        sys.Close(p.fd);
      }
      sys.Free(p);
      assert rest - {t.key} == live - Keys(t);
      WithoutTwice(old(sys.open), Keys(t.left), Keys(t.right));
      WithoutTwice(old(sys.open), Keys(t.left) + Keys(t.right), {t.key});
      assert Keys(t.left) + Keys(t.right) + {t.key} == Keys(t);
    }
  }
}
