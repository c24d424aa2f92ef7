/**
 The AVL tree of process entries, seen as a value: keys only, no pointers.

 `InsertTree` makes the same choices as `insert` in src/avltree.c (descend, test
 the height difference against 2, rotate once or twice); the heap code in module
 `AvlTree` is proved to compute exactly this function.
 */
module AvlShape {
  import opened Arithmetic

  datatype Tree = Nil | Bin(key: int, left: Tree, right: Tree)

  function Keys(t: Tree): set<int> {
    match t
    case Nil => {}
    case Bin(k, l, r) => Keys(l) + {k} + Keys(r)
  }

  /** The height the source caches in each node; the empty tree has height -1. */
  function Height(t: Tree): (h: int)
    ensures h >= -1
    ensures h == -1 <==> t.Nil?
  {
    match t
    case Nil => -1
    case Bin(_, l, r) => Max(Height(l), Height(r)) + 1
  }

  function Size(t: Tree): nat {
    match t
    case Nil => 0
    case Bin(_, l, r) => Size(l) + 1 + Size(r)
  }

  /** The order in which `write_stat` visits the entries. */
  function PreOrder(t: Tree): seq<int> {
    match t
    case Nil => []
    case Bin(k, l, r) => [k] + PreOrder(l) + PreOrder(r)
  }

  ghost predicate SearchTree(t: Tree) {
    match t
    case Nil => true
    case Bin(k, l, r) =>
      && SearchTree(l) && SearchTree(r)
      && (forall x :: x in Keys(l) ==> x < k)
      && (forall x :: x in Keys(r) ==> k < x)
  }

  lemma {:induction false} KeysApart(t: Tree)
    requires SearchTree(t) && t.Bin?
    ensures Keys(t.left) !! Keys(t.right)
    ensures t.key !in Keys(t.left) && t.key !in Keys(t.right)
  {
    forall x | x in Keys(t.left)
      ensures x !in Keys(t.right)
    {
    }
  }

  ghost predicate Balanced(t: Tree) {
    match t
    case Nil => true
    case Bin(_, l, r) => Balanced(l) && Balanced(r) && -1 <= Height(l) - Height(r) <= 1
  }

  ghost predicate Avl(t: Tree) {
    SearchTree(t) && Balanced(t)
  }

  // ---------------------------------------------------------------- rotations

  function SingleLeft(t: Tree): Tree {
    match t
    case Bin(k2, Bin(k1, a, b), c) => Bin(k1, a, Bin(k2, b, c))
    case _ => t
  }

  function SingleRight(t: Tree): Tree {
    match t
    case Bin(k1, a, Bin(k2, b, c)) => Bin(k2, Bin(k1, a, b), c)
    case _ => t
  }

  function DoubleLeft(t: Tree): Tree {
    match t
    case Bin(k, l, r) => SingleLeft(Bin(k, SingleRight(l), r))
    case Nil => t
  }

  function DoubleRight(t: Tree): Tree {
    match t
    case Bin(k, l, r) => SingleRight(Bin(k, l, SingleLeft(r)))
    case Nil => t
  }

  predicate LeftHeavy(t: Tree) {
    t.Bin? && Height(t.left) - Height(t.right) == 2
  }

  predicate RightHeavy(t: Tree) {
    t.Bin? && Height(t.right) - Height(t.left) == 2
  }

  /** The repair after an insertion of `x` below the left child. */
  function FixLeft(t: Tree, x: int): Tree {
    if LeftHeavy(t) && t.left.Bin? then
      if x < t.left.key then SingleLeft(t) else DoubleLeft(t)
    else
      t
  }

  /** The repair after an insertion of `x` below the right child. */
  function FixRight(t: Tree, x: int): Tree {
    if RightHeavy(t) && t.right.Bin? then
      if x > t.right.key then SingleRight(t) else DoubleRight(t)
    else
      t
  }

  function InsertTree(t: Tree, x: int): Tree {
    match t
    case Nil => Bin(x, Nil, Nil)
    case Bin(k, l, r) =>
      if x < k then FixLeft(Bin(k, InsertTree(l, x), r), x)
      else if x > k then FixRight(Bin(k, l, InsertTree(r, x)), x)
      else t
  }

  function InsertAll(t: Tree, xs: seq<int>): Tree
    decreases |xs|
  {
    if xs == [] then t else InsertAll(InsertTree(t, xs[0]), xs[1..])
  }

  // --------------------------------------------- what one insertion guarantees

  /** A tree that has just grown by one level leans towards the new key. */
  ghost predicate LeansTowards(t: Tree, x: int) {
    t.Bin? &&
    ((x < t.key && Height(t.left) == Height(t.right) + 1) ||
     (x > t.key && Height(t.right) == Height(t.left) + 1))
  }

  /** `t` took the place of a tree of height `was` when `x` was inserted. */
  ghost predicate Grown(t: Tree, was: int, x: int) {
    Height(t) == was || (Height(t) == was + 1 && (was == -1 || LeansTowards(t, x)))
  }

  lemma {:induction false} SingleLeftOk(t: Tree)
    requires SearchTree(t) && t.Bin? && t.left.Bin?
    ensures SearchTree(SingleLeft(t)) && Keys(SingleLeft(t)) == Keys(t)
  {
    var Bin(k2, Bin(k1, a, b), c) := t;
    assert k1 in Keys(t.left);
    assert forall x :: x in Keys(b) ==> x in Keys(t.left);
  }

  lemma {:induction false} SingleRightOk(t: Tree)
    requires SearchTree(t) && t.Bin? && t.right.Bin?
    ensures SearchTree(SingleRight(t)) && Keys(SingleRight(t)) == Keys(t)
  {
    var Bin(k1, a, Bin(k2, b, c)) := t;
    assert k2 in Keys(t.right);
    assert forall x :: x in Keys(b) ==> x in Keys(t.right);
  }

  lemma {:induction false} DoubleLeftOk(t: Tree)
    requires SearchTree(t) && t.Bin? && t.left.Bin? && t.left.right.Bin?
    ensures SearchTree(DoubleLeft(t)) && Keys(DoubleLeft(t)) == Keys(t)
  {
    SingleRightOk(t.left);
    SingleLeftOk(Bin(t.key, SingleRight(t.left), t.right));
  }

  lemma {:induction false} DoubleRightOk(t: Tree)
    requires SearchTree(t) && t.Bin? && t.right.Bin? && t.right.left.Bin?
    ensures SearchTree(DoubleRight(t)) && Keys(DoubleRight(t)) == Keys(t)
  {
    SingleLeftOk(t.right);
    SingleRightOk(Bin(t.key, t.left, SingleLeft(t.right)));
  }

  lemma {:induction false} FixLeftKeeps(t: Tree, x: int)
    requires SearchTree(t) && t.Bin?
    requires LeftHeavy(t) ==> LeansTowards(t.left, x)
    ensures SearchTree(FixLeft(t, x)) && Keys(FixLeft(t, x)) == Keys(t)
  {
    if LeftHeavy(t) {
      if x < t.left.key { SingleLeftOk(t); } else { DoubleLeftOk(t); }
    }
  }

  lemma {:induction false} FixRightKeeps(t: Tree, x: int)
    requires SearchTree(t) && t.Bin?
    requires RightHeavy(t) ==> LeansTowards(t.right, x)
    ensures SearchTree(FixRight(t, x)) && Keys(FixRight(t, x)) == Keys(t)
  {
    if RightHeavy(t) {
      if x > t.right.key { SingleRightOk(t); } else { DoubleRightOk(t); }
    }
  }

  /** Repairing the left side: `was` is the left subtree's height before the insertion. */
  lemma {:induction false} FixLeftBalances(t: Tree, was: int, x: int)
    requires t.Bin? && x < t.key && Balanced(t.left) && Balanced(t.right)
    requires -1 <= was - Height(t.right) <= 1
    requires Grown(t.left, was, x)
    ensures Height(t.left) - Height(t.right) <= 2
    ensures LeftHeavy(t) ==> LeansTowards(t.left, x)
    ensures Balanced(FixLeft(t, x))
    ensures LeftHeavy(t) ==> Height(FixLeft(t, x)) == Max(was, Height(t.right)) + 1
    ensures !LeftHeavy(t) ==> FixLeft(t, x) == t
  {
    if LeftHeavy(t) {
      assert LeansTowards(t.left, x);
      var Bin(k, Bin(k1, a, b), c) := t;
      if x >= k1 {
        assert b.Bin?;
        var Bin(k2, b1, b2) := b;
        assert FixLeft(t, x) == Bin(k2, Bin(k1, a, b1), Bin(k, b2, c));
      }
    }
  }

  lemma {:induction false} FixRightBalances(t: Tree, was: int, x: int)
    requires t.Bin? && x > t.key && Balanced(t.left) && Balanced(t.right)
    requires -1 <= was - Height(t.left) <= 1
    requires Grown(t.right, was, x)
    ensures Height(t.right) - Height(t.left) <= 2
    ensures RightHeavy(t) ==> LeansTowards(t.right, x)
    ensures Balanced(FixRight(t, x))
    ensures RightHeavy(t) ==> Height(FixRight(t, x)) == Max(was, Height(t.left)) + 1
    ensures !RightHeavy(t) ==> FixRight(t, x) == t
  {
    if RightHeavy(t) {
      assert LeansTowards(t.right, x);
      var Bin(k, c, Bin(k1, b, a)) := t;
      if x <= k1 {
        assert b.Bin?;
        var Bin(k2, b1, b2) := b;
        assert FixRight(t, x) == Bin(k2, Bin(k, c, b1), Bin(k1, b2, a));
      }
    }
  }

  /** A search tree stays one when `x` goes into its left subtree. */
  lemma {:induction false} LeftReplaced(t: Tree, l: Tree, x: int)
    requires SearchTree(t) && t.Bin? && x < t.key
    requires SearchTree(l) && Keys(l) == Keys(t.left) + {x}
    ensures SearchTree(Bin(t.key, l, t.right)) && Keys(Bin(t.key, l, t.right)) == Keys(t) + {x}
  {
  }

  lemma {:induction false} RightReplaced(t: Tree, r: Tree, x: int)
    requires SearchTree(t) && t.Bin? && x > t.key
    requires SearchTree(r) && Keys(r) == Keys(t.right) + {x}
    ensures SearchTree(Bin(t.key, t.left, r)) && Keys(Bin(t.key, t.left, r)) == Keys(t) + {x}
  {
  }

  lemma {:induction false} InsertLeftOk(t: Tree, x: int)
    requires Avl(t) && t.Bin? && x < t.key
    requires SearchTree(InsertTree(t.left, x)) && Keys(InsertTree(t.left, x)) == Keys(t.left) + {x}
    ensures SearchTree(InsertTree(t, x)) && Keys(InsertTree(t, x)) == Keys(t) + {x}
  {
    var u := Bin(t.key, InsertTree(t.left, x), t.right);
    LeftReplaced(t, InsertTree(t.left, x), x);
    InsertBalances(t.left, x);
    FixLeftBalances(u, Height(t.left), x);
    FixLeftKeeps(u, x);
  }

  lemma {:induction false} InsertRightOk(t: Tree, x: int)
    requires Avl(t) && t.Bin? && x > t.key
    requires SearchTree(InsertTree(t.right, x)) && Keys(InsertTree(t.right, x)) == Keys(t.right) + {x}
    ensures SearchTree(InsertTree(t, x)) && Keys(InsertTree(t, x)) == Keys(t) + {x}
  {
    var u := Bin(t.key, t.left, InsertTree(t.right, x));
    RightReplaced(t, InsertTree(t.right, x), x);
    InsertBalances(t.right, x);
    FixRightBalances(u, Height(t.right), x);
    FixRightKeeps(u, x);
  }

  /** Insertion keeps the search order and adds exactly `x`. */
  lemma {:induction false} InsertOk(t: Tree, x: int)
    requires Avl(t)
    ensures SearchTree(InsertTree(t, x))
    ensures Keys(InsertTree(t, x)) == Keys(t) + {x}
  {
    match t
    case Nil =>
    case Bin(k, l, r) =>
      if x < k {
        InsertOk(l, x);
        InsertLeftOk(t, x);
      } else if x > k {
        InsertOk(r, x);
        InsertRightOk(t, x);
      }
  }

  /** Insertion keeps the balance and grows the tree by at most one level. */
  lemma {:induction false} InsertBalances(t: Tree, x: int)
    requires Balanced(t)
    ensures Balanced(InsertTree(t, x))
    ensures Grown(InsertTree(t, x), Height(t), x)
  {
    match t
    case Nil =>
    case Bin(k, l, r) =>
      if x < k {
        InsertBalances(l, x);
        FixLeftBalances(Bin(k, InsertTree(l, x), r), Height(l), x);
      } else if x > k {
        InsertBalances(r, x);
        FixRightBalances(Bin(k, l, InsertTree(r, x)), Height(r), x);
      }
  }

  lemma {:induction false} InsertPresent(t: Tree, x: int)
    requires Avl(t) && x in Keys(t)
    ensures InsertTree(t, x) == t
  {
    var Bin(k, l, r) := t;
    if x < k {
      InsertPresent(l, x);
      assert !LeftHeavy(t);
    } else if x > k {
      InsertPresent(r, x);
      assert !RightHeavy(t);
    }
  }

  /** Over every sequence of insertions the tree stays an AVL search tree holding exactly the keys inserted. */
  lemma {:induction false} InsertAllOk(t: Tree, xs: seq<int>)
    requires Avl(t)
    ensures Avl(InsertAll(t, xs))
    ensures Keys(InsertAll(t, xs)) == Keys(t) + set x | x in xs
    decreases |xs|
  {
    if xs != [] {
      InsertOk(t, xs[0]);
      InsertBalances(t, xs[0]);
      InsertAllOk(InsertTree(t, xs[0]), xs[1..]);
      assert xs == [xs[0]] + xs[1..];
    }
  }

  lemma {:induction false} InsertAllNonempty(t: Tree, xs: seq<int>)
    requires t.Bin? || xs != []
    ensures InsertAll(t, xs).Bin?
    decreases |xs|
  {
    if xs != [] {
      InsertNonempty(t, xs[0]);
      InsertAllNonempty(InsertTree(t, xs[0]), xs[1..]);
    }
  }

  lemma {:induction false} InsertNonempty(t: Tree, x: int)
    ensures InsertTree(t, x).Bin?
  {
  }

  lemma {:induction false} InsertAllSnoc(t: Tree, xs: seq<int>, x: int)
    ensures InsertAll(t, xs + [x]) == InsertTree(InsertAll(t, xs), x)
    decreases |xs|
  {
    if xs == [] {
      assert InsertAll(InsertTree(t, x), []) == InsertTree(t, x);
    } else {
      InsertAllSnoc(InsertTree(t, xs[0]), xs[1..], x);
      assert (xs + [x])[1..] == xs[1..] + [x];
    }
  }

  // ------------------------------------------------ how much one insertion moves

  /** How many of the `== 2` tests succeed while `x` is being inserted. */
  function Rebalancings(t: Tree, x: int): nat {
    match t
    case Nil => 0
    case Bin(k, l, r) =>
      if x < k then Rebalancings(l, x) + (if LeftHeavy(Bin(k, InsertTree(l, x), r)) then 1 else 0)
      else if x > k then Rebalancings(r, x) + (if RightHeavy(Bin(k, l, InsertTree(r, x))) then 1 else 0)
      else 0
  }

  /** On the whole path of the insertion, no node ever sees its two sides differ by more than 2. */
  ghost predicate GapsAtMostTwo(t: Tree, x: int) {
    match t
    case Nil => true
    case Bin(k, l, r) =>
      && (x < k ==> GapsAtMostTwo(l, x) && -2 <= Height(InsertTree(l, x)) - Height(r) <= 2)
      && (x > k ==> GapsAtMostTwo(r, x) && -2 <= Height(l) - Height(InsertTree(r, x)) <= 2)
  }

  /**
   At most one repair per insertion, and a repair gives the repaired subtree -- and with
   it the whole tree -- the height it had before.
   */
  lemma {:induction false} AtMostOneRebalancing(t: Tree, x: int)
    requires Balanced(t)
    ensures Rebalancings(t, x) <= 1
    ensures Rebalancings(t, x) == 1 ==> Height(InsertTree(t, x)) == Height(t)
  {
    match t
    case Nil =>
    case Bin(k, l, r) =>
      if x < k {
        AtMostOneRebalancing(l, x);
        InsertBalances(l, x);
        FixLeftBalances(Bin(k, InsertTree(l, x), r), Height(l), x);
      } else if x > k {
        AtMostOneRebalancing(r, x);
        InsertBalances(r, x);
        FixRightBalances(Bin(k, l, InsertTree(r, x)), Height(r), x);
      }
  }

  lemma {:induction false} ImbalanceNeverExceedsTwo(t: Tree, x: int)
    requires Balanced(t)
    ensures GapsAtMostTwo(t, x)
  {
    match t
    case Nil =>
    case Bin(k, l, r) =>
      if x < k {
        ImbalanceNeverExceedsTwo(l, x);
        InsertBalances(l, x);
      } else if x > k {
        ImbalanceNeverExceedsTwo(r, x);
        InsertBalances(r, x);
      }
  }

  // ------------------------------------------------------- size against height

  function Fib(n: nat): nat {
    if n < 2 then n else Fib(n - 1) + Fib(n - 2)
  }

  /** The number of nodes `find` compares `x` with. */
  function FindVisits(t: Tree, x: int): nat {
    match t
    case Nil => 0
    case Bin(k, l, r) =>
      if x < k then 1 + FindVisits(l, x)
      else if x > k then 1 + FindVisits(r, x)
      else 1
  }

  lemma {:induction false} FibMonotone(m: nat, n: nat)
    requires m <= n
    ensures Fib(m) <= Fib(n)
    decreases n - m
  {
    if m < n {
      FibMonotone(m + 1, n);
    }
  }

  lemma {:induction false} FibDoubles(n: nat)
    ensures Fib(n + 2) >= Pow2(n / 2)
  {
    if n >= 2 {
      FibDoubles(n - 2);
      assert Fib(n + 1) >= Fib(n) by { FibMonotone(n, n + 1); }
    }
  }

  lemma {:induction false} FibOfHeights(a: int, b: int)
    requires -1 <= a && -1 <= b && -1 <= a - b <= 1
    ensures Fib(Max(a, b) + 4) <= Fib(a + 3) + Fib(b + 3)
  {
    FibMonotone(Max(a, b) + 2, a + 3);
    FibMonotone(Max(a, b) + 2, b + 3);
  }

  /** A balanced tree of height h has at least Fib(h+3) - 1 nodes. */
  lemma {:induction false} SizeAtLeastFib(t: Tree)
    requires Balanced(t)
    ensures Size(t) >= Fib(Height(t) + 3) - 1
  {
    match t
    case Nil =>
    case Bin(_, l, r) =>
      SizeAtLeastFib(l);
      SizeAtLeastFib(r);
      FibOfHeights(Height(l), Height(r));
  }

  lemma {:induction false} VisitsWithinHeight(t: Tree, x: int)
    ensures FindVisits(t, x) <= Height(t) + 1
  {
    match t
    case Nil =>
    case Bin(k, l, r) =>
      VisitsWithinHeight(l, x);
      VisitsWithinHeight(r, x);
  }

  /** `find` visits logarithmically many nodes: at most 2*log2(size + 1) + 1. */
  lemma {:induction false} FindIsLogarithmic(t: Tree, x: int)
    requires Balanced(t)
    ensures Fib(FindVisits(t, x) + 2) <= Size(t) + 1
    ensures Pow2(FindVisits(t, x) / 2) <= Size(t) + 1
  {
    VisitsWithinHeight(t, x);
    SizeAtLeastFib(t);
    FibMonotone(FindVisits(t, x) + 2, Height(t) + 3);
    FibDoubles(FindVisits(t, x));
  }

  // ---------------------------------------------------------------- pre-order

  predicate NoDuplicates(s: seq<int>) {
    forall i, j :: 0 <= i < j < |s| ==> s[i] != s[j]
  }

  lemma {:induction false} PreOrderMembers(t: Tree)
    ensures forall k :: k in PreOrder(t) <==> k in Keys(t)
    ensures |PreOrder(t)| == Size(t)
  {
    match t
    case Nil =>
    case Bin(k, l, r) =>
      PreOrderMembers(l);
      PreOrderMembers(r);
  }

  lemma {:induction false} NoDuplicatesJoin(k: int, a: seq<int>, b: seq<int>)
    requires NoDuplicates(a) && NoDuplicates(b)
    requires forall x :: x in a ==> x < k
    requires forall x :: x in b ==> k < x
    ensures NoDuplicates([k] + a + b)
  {
    var p := [k] + a + b;
    forall i, j | 0 <= i < j < |p|
      ensures p[i] != p[j]
    {
      assert j <= |a| ==> p[j] == a[j - 1] && p[j] in a;
      assert j > |a| ==> p[j] == b[j - 1 - |a|] && p[j] in b;
      assert 0 < i <= |a| ==> p[i] == a[i - 1] && p[i] in a;
      assert i > |a| ==> p[i] == b[i - 1 - |a|] && p[i] in b;
    }
  }

  /** The pre-order of a search tree lists every key exactly once. */
  lemma {:induction false} PreOrderListsKeysOnce(t: Tree)
    requires SearchTree(t)
    ensures NoDuplicates(PreOrder(t))
    ensures forall k :: k in PreOrder(t) <==> k in Keys(t)
    ensures |PreOrder(t)| == Size(t)
  {
    PreOrderMembers(t);
    match t
    case Nil =>
    case Bin(k, l, r) =>
      PreOrderListsKeysOnce(l);
      PreOrderListsKeysOnce(r);
      NoDuplicatesJoin(k, PreOrder(l), PreOrder(r));
  }
}
