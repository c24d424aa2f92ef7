/**
 The list of the busiest processes that src/ptop.c keeps for the display: 41 entries
 filled by `add_higher_process_info`.
 */
module Ranking {
  import opened Arithmetic
  import opened Floats
  import opened Tables

  const SHOW_NUM: nat := 40
  const BOARD_SIZE: nat := 41

  /** Where the scan from the end of the first `length` entries comes to rest. */
  function Place(board: seq<ProcessInfo>, cpu: Float, length: nat): (p: nat)
    requires length <= SHOW_NUM < |board|
    ensures p <= length
    ensures length == SHOW_NUM ==> p == SHOW_NUM
    ensures forall i :: p <= i < length ==> Less(board[i].cpu, cpu)
    ensures 0 < p && length < SHOW_NUM ==> !Less(board[p - 1].cpu, cpu)
  {
    if length > 0 && Less(board[length - 1].cpu, cpu) && length - 1 != SHOW_NUM - 1
    then Place(board, cpu, length - 1)
    else length
  }

  function Offer(board: seq<ProcessInfo>, pi: ProcessInfo, length: nat): (r: seq<ProcessInfo>)
    requires length <= SHOW_NUM && |board| == BOARD_SIZE
    ensures |r| == BOARD_SIZE
  {
    var p := Place(board, pi.cpu, length);
    if p <= SHOW_NUM - 1 then board[..p] + [pi] + board[p..length] + board[length + 1..]
    else board
  }

  lemma {:induction false} PlaceIs(board: seq<ProcessInfo>, cpu: Float, length: nat, p: nat)
    requires length <= SHOW_NUM < |board| && p <= length
    requires length == SHOW_NUM ==> p == length
    requires forall i :: p <= i < length ==> Less(board[i].cpu, cpu)
    requires p > 0 && length < SHOW_NUM ==> !Less(board[p - 1].cpu, cpu)
    ensures Place(board, cpu, length) == p
  {
    var q := Place(board, cpu, length);
    var beforeQ, beforeP := if q > 0 then board[q - 1] else board[0], if p > 0 then board[p - 1] else board[0];
  }

  /** Moving the entries from `p` up to `length` one place up makes room for `x` at `p`. */
  lemma {:induction false} Shifted<T>(was: seq<T>, now: seq<T>, x: T, p: nat, length: nat)
    requires p <= length < |was| == |now|
    requires now[p] == x
    requires forall j :: 0 <= j < p ==> now[j] == was[j]
    requires forall j :: p < j <= length ==> now[j] == was[j - 1]
    requires forall j :: length < j < |was| ==> now[j] == was[j]
    ensures now == was[..p] + [x] + was[p..length] + was[length + 1..]
  {
    assert now[..p] == was[..p];
    assert now[p + 1..length + 1] == was[p..length];
    assert now[length + 1..] == was[length + 1..];
    assert now == now[..p] + [now[p]] + now[p + 1..length + 1] + now[length + 1..];
  }

  /** The scan of `add_higher_process_info`: entries with less cpu move one place up. */
  method MakeRoom(board: array<ProcessInfo>, cpu: Float, length: nat) returns (p: nat)
    requires board.Length == BOARD_SIZE && length <= SHOW_NUM
    modifies board
    ensures p <= length && (length == SHOW_NUM ==> p == length)
    ensures p == Place(old(board[..]), cpu, length)
    ensures forall j :: 0 <= j < p || length < j < BOARD_SIZE ==> board[j] == old(board[j])
    ensures forall j :: p < j <= length ==> board[j] == old(board[j - 1])
    ensures p == length ==> board[..] == old(board[..])
  {
    ghost var was := board[..];
    var i := length - 1;
    while i >= 0 && Less(board[i].cpu, cpu) && i != SHOW_NUM - 1
      invariant -1 <= i < length
      invariant length == SHOW_NUM ==> i == length - 1
      invariant forall j :: i < j < length ==> Less(was[j].cpu, cpu)
      invariant forall j :: 0 <= j <= i + 1 || length < j < BOARD_SIZE ==> board[j] == was[j]
      invariant forall j :: i + 1 < j <= length ==> board[j] == was[j - 1]
    {
      board[i + 1] := board[i];
      i := i - 1;
    }
    p := i + 1;
    PlaceIs(was, cpu, length, p);
  }

  method AddHigherProcessInfo(board: array<ProcessInfo>, pi: ProcessInfo, length: nat)
    requires board.Length == BOARD_SIZE && length <= SHOW_NUM
    modifies board
    ensures board[..] == Offer(old(board[..]), pi, length)
  {
    var p := MakeRoom(board, pi.cpu, length);
    if p <= SHOW_NUM - 1 {
      board[p] := pi;
      Shifted(old(board[..]), board[..], pi, p, length);
    }
  }

  // ------------------------------------------------------- a round of offers

  /** The board after the records of one round were offered, one after the other. */
  function OfferAll(board: seq<ProcessInfo>, recs: seq<ProcessInfo>): (r: seq<ProcessInfo>)
    requires |board| == BOARD_SIZE
    ensures |r| == BOARD_SIZE
  {
    if recs == [] then board
    else
      var n := |recs| - 1;
      Offer(OfferAll(board, recs[..n]), recs[n], Min(n, SHOW_NUM))
  }

  /** All percentages of one round are of one interval, hence of one kind. */
  ghost predicate Uniform(recs: seq<ProcessInfo>) {
    forall i, j :: 0 <= i < |recs| && 0 <= j < |recs| ==> SameKind(recs[i].cpu, recs[j].cpu)
  }

  ghost predicate Descending(s: seq<ProcessInfo>) {
    forall i, j :: 0 <= i < j < |s| ==> !Less(s[i].cpu, s[j].cpu)
  }

  function WithKey(s: seq<ProcessInfo>, key: real): seq<ProcessInfo> {
    if s == [] then []
    else WithKey(s[..|s| - 1], key) + (if Key(s[|s| - 1].cpu) == key then [s[|s| - 1]] else [])
  }

  /** `out` is `recs` in descending order of cpu, with equals in the order of `recs`. */
  ghost predicate IsStableSort(out: seq<ProcessInfo>, recs: seq<ProcessInfo>) {
    && Descending(out)
    && multiset(out) == multiset(recs)
    && forall key: real :: WithKey(out, key) == WithKey(recs, key)
  }

  lemma {:induction false} WithKeyConcat(a: seq<ProcessInfo>, b: seq<ProcessInfo>, key: real)
    ensures WithKey(a + b, key) == WithKey(a, key) + WithKey(b, key)
  {
    if b == [] {
      assert a + b == a;
    } else {
      var n := |b| - 1;
      WithKeyConcat(a, b[..n], key);
      assert (a + b)[..|a + b| - 1] == a + b[..n];
    }
  }

  lemma {:induction false} WithKeyNone(s: seq<ProcessInfo>, key: real)
    requires forall i :: 0 <= i < |s| ==> Key(s[i].cpu) != key
    ensures WithKey(s, key) == []
  {
    if s != [] {
      WithKeyNone(s[..|s| - 1], key);
    }
  }

  lemma {:induction false} InsertWithKey(s: seq<ProcessInfo>, x: ProcessInfo, p: nat, key: real)
    requires p <= |s|
    requires forall i :: p <= i < |s| ==> Key(s[i].cpu) < Key(x.cpu)
    ensures WithKey(s[..p] + [x] + s[p..], key) == WithKey(s + [x], key)
  {
    WithKeyConcat(s[..p] + [x], s[p..], key);
    WithKeyConcat(s[..p], [x], key);
    WithKeyConcat(s[..p], s[p..], key);
    assert s[..p] + s[p..] == s;
    WithKeyConcat(s, [x], key);
    if Key(x.cpu) == key {
      WithKeyNone(s[p..], key);
    } else {
      assert WithKey([x], key) == [];
    }
  }

  lemma {:induction false} InsertDescending(s: seq<ProcessInfo>, x: ProcessInfo, p: nat)
    requires Descending(s) && Uniform(s + [x]) && p <= |s|
    requires forall i :: p <= i < |s| ==> Less(s[i].cpu, x.cpu)
    requires p > 0 ==> !Less(s[p - 1].cpu, x.cpu)
    ensures Descending(s[..p] + [x] + s[p..])
  {
    var t := s[..p] + [x] + s[p..];
    forall i | 0 <= i < |s|
      ensures Less(s[i].cpu, x.cpu) <==> Key(s[i].cpu) < Key(x.cpu)
      ensures Less(x.cpu, s[i].cpu) <==> Key(x.cpu) < Key(s[i].cpu)
      ensures p > 0 ==> (Less(s[i].cpu, s[p - 1].cpu) <==> Key(s[i].cpu) < Key(s[p - 1].cpu))
    {
      assert SameKind((s + [x])[i].cpu, (s + [x])[|s|].cpu);
      assert p > 0 ==> SameKind((s + [x])[i].cpu, (s + [x])[p - 1].cpu);
      KeyOrder(s[i].cpu, x.cpu);
      KeyOrder(x.cpu, s[i].cpu);
    }
    forall i, j | 0 <= i < j < |t|
      ensures !Less(t[i].cpu, t[j].cpu)
    {
      assert i < p ==> t[i] == s[i];
      assert i > p ==> t[i] == s[i - 1];
      assert j < p ==> t[j] == s[j];
      assert j > p ==> t[j] == s[j - 1];
    }
  }

  lemma {:induction false} InsertStable(s: seq<ProcessInfo>, recs: seq<ProcessInfo>, x: ProcessInfo, p: nat)
    requires IsStableSort(s, recs) && Uniform(recs + [x]) && p <= |s|
    requires forall i :: p <= i < |s| ==> Less(s[i].cpu, x.cpu)
    requires p > 0 ==> !Less(s[p - 1].cpu, x.cpu)
    ensures IsStableSort(s[..p] + [x] + s[p..], recs + [x])
  {
    UniformPermuted(s, recs, x);
    InsertDescending(s, x, p);
    var t := s[..p] + [x] + s[p..];
    assert s == s[..p] + s[p..];
    assert multiset(t) == multiset(s) + multiset{x};
    forall i | p <= i < |s|
      ensures Key(s[i].cpu) < Key(x.cpu)
    {
      assert SameKind((s + [x])[i].cpu, (s + [x])[|s|].cpu);
      KeyOrder(s[i].cpu, x.cpu);
    }
    forall key: real
      ensures WithKey(t, key) == WithKey(recs + [x], key)
    {
      InsertWithKey(s, x, p, key);
      WithKeyConcat(s, [x], key);
      WithKeyConcat(recs, [x], key);
    }
  }

  lemma {:induction false} UniformPermuted(s: seq<ProcessInfo>, recs: seq<ProcessInfo>, x: ProcessInfo)
    requires multiset(s) == multiset(recs) && Uniform(recs + [x])
    ensures Uniform(s + [x])
  {
    var a, b := s + [x], recs + [x];
    forall i | 0 <= i < |a|
      ensures exists k :: 0 <= k < |b| && b[k] == a[i]
    {
      if i == |s| {
        assert b[|recs|] == x;
      } else {
        assert s[i] in multiset(s) && s[i] in recs;
        var k :| 0 <= k < |recs| && recs[k] == s[i];
        assert b[k] == a[i];
      }
    }
  }

  lemma {:induction false} OfferSlices(was: seq<ProcessInfo>, x: ProcessInfo, n: nat, p: nat)
    requires |was| == BOARD_SIZE && n < SHOW_NUM && p == Place(was, x.cpu, n)
    ensures Offer(was, x, n)[..n + 1] == was[..n][..p] + [x] + was[..n][p..]
    ensures Offer(was, x, n)[n + 1..] == was[n..][1..]
  {
    assert was[..n][..p] == was[..p];
    assert was[..n][p..] == was[p..n];
    assert was[n..][1..] == was[n + 1..];
  }

  /**
   After any number of offers in a round, the entries in front are the stable sort of the
   first 40 records offered, and no other entry has been written: what the last round left
   in front plays no part, and a record offered when 40 are listed is dropped.
   */
  lemma {:induction false} BoardIsStableSort(board: seq<ProcessInfo>, recs: seq<ProcessInfo>)
    requires |board| == BOARD_SIZE && Uniform(recs)
    ensures var m := Min(|recs|, SHOW_NUM);
            && IsStableSort(OfferAll(board, recs)[..m], recs[..m])
            && OfferAll(board, recs)[m..] == board[m..]
  {
    if recs == [] {
      assert IsStableSort([], []);
    } else {
      var n := |recs| - 1;
      BoardIsStableSort(board, recs[..n]);
      BoardStep(board, recs);
    }
  }

  lemma {:induction false} BoardStep(board: seq<ProcessInfo>, recs: seq<ProcessInfo>)
    requires |board| == BOARD_SIZE && Uniform(recs) && recs != []
    requires var m := Min(|recs| - 1, SHOW_NUM); var init := recs[..|recs| - 1];
             && IsStableSort(OfferAll(board, init)[..m], init[..m])
             && OfferAll(board, init)[m..] == board[m..]
    ensures var m := Min(|recs|, SHOW_NUM);
            && IsStableSort(OfferAll(board, recs)[..m], recs[..m])
            && OfferAll(board, recs)[m..] == board[m..]
  {
    var n := |recs| - 1;
    var init, x := recs[..n], recs[n];
    var was := OfferAll(board, init);
    if n < SHOW_NUM {
      assert init[..n] == init && recs[..n + 1] == recs == init + [x];
      BoardGrows(board, was, init, x);
    } else {
      assert init[..SHOW_NUM] == recs[..SHOW_NUM];
    }
  }

  lemma {:induction false} BoardGrows(board: seq<ProcessInfo>, was: seq<ProcessInfo>,
                                      init: seq<ProcessInfo>, x: ProcessInfo)
    requires |board| == |was| == BOARD_SIZE && |init| < SHOW_NUM
    requires Uniform(init + [x]) && IsStableSort(was[..|init|], init) && was[|init|..] == board[|init|..]
    ensures IsStableSort(Offer(was, x, |init|)[..|init| + 1], init + [x])
    ensures Offer(was, x, |init|)[|init| + 1..] == board[|init| + 1..]
  {
    var n := |init|;
    var p := Place(was, x.cpu, n);
    OfferSlices(was, x, n, p);
    InsertStable(was[..n], init, x, p);
    assert board[n + 1..] == board[n..][1..];
  }

  // ------------------------------------------------------ is it the top 40?

  /** `top` is taken from `recs`, and nothing left behind has more cpu than anything taken. */
  ghost predicate TrueTop(top: seq<ProcessInfo>, recs: seq<ProcessInfo>) {
    && multiset(top) <= multiset(recs)
    && forall a, b :: a in top && b in multiset(recs) - multiset(top) ==> !Less(a.cpu, b.cpu)
  }

  lemma {:induction false} TrueTopOfSplit(top: seq<ProcessInfo>, early: seq<ProcessInfo>, late: seq<ProcessInfo>)
    requires multiset(top) == multiset(early)
    ensures TrueTop(top, early + late) <==>
            (forall a, b :: a in early && b in late ==> !Less(a.cpu, b.cpu))
  {
    assert multiset(early + late) - multiset(top) == multiset(late);
    assert forall a :: a in top <==> a in multiset(early);
    assert forall b :: b in multiset(late) <==> b in late;
  }

  /** The list is the true top 40 iff no record offered late has more cpu than one of the first 40. */
  lemma {:induction false} TrueTopIff(board: seq<ProcessInfo>, recs: seq<ProcessInfo>)
    requires |board| == BOARD_SIZE && Uniform(recs) && |recs| >= SHOW_NUM
    ensures TrueTop(OfferAll(board, recs)[..SHOW_NUM], recs) <==>
            (forall a, b :: a in recs[..SHOW_NUM] && b in recs[SHOW_NUM..] ==> !Less(a.cpu, b.cpu))
  {
    BoardIsStableSort(board, recs);
    TrueTopOfSplit(OfferAll(board, recs)[..SHOW_NUM], recs[..SHOW_NUM], recs[SHOW_NUM..]);
    assert recs == recs[..SHOW_NUM] + recs[SHOW_NUM..];
  }
}
