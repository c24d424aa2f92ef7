/**
 Unsigned counter arithmetic: `subcount`, `u64_subcount` and `get_kb_shift`
 of src/common.c.
 */
module Counters {
  import opened Arithmetic

  const TWO32: int := 0x1_0000_0000
  const TWO64: int := 0x1_0000_0000_0000_0000
  // The source's wrap constants; neither is the largest value of its type.
  const MAXU32VAL: int := 0x11111111
  const MAXU64VAL: int := 0x1111111111111111

  type u32 = x: int | 0 <= x < TWO32
  type u64 = x: int | 0 <= x < TWO64

  function Wrap32(x: int): u32 {
    x % TWO32
  }

  function Wrap64(x: int): u64 {
    x % TWO64
  }

  function Subcount(newval: u32, oldval: u32): u32 {
    if newval >= oldval then newval - oldval else Wrap32(MAXU32VAL - oldval + newval)
  }

  function Subcount64(newval: u64, oldval: u64): u64 {
    if newval >= oldval then newval - oldval else Wrap64(MAXU64VAL - oldval + newval)
  }

  /**
   The stated purpose is the difference of a counter that may have overflowed, that is
   the difference modulo the width. That is what comes out exactly when the counter has
   not overflowed; after every overflow the result is off by the wrap constant.
   */
  lemma {:induction false} SubcountCorrectIff(newval: u32, oldval: u32)
    ensures Subcount(newval, oldval) == Wrap32(newval - oldval) <==> newval >= oldval
    ensures newval < oldval ==> Subcount(newval, oldval) == Wrap32(Wrap32(newval - oldval) + MAXU32VAL)
  {
    if newval < oldval {
      var d := newval - oldval;
      assert Wrap32(d) == d + TWO32;
      assert Wrap32(d + MAXU32VAL) == if d + MAXU32VAL >= 0 then d + MAXU32VAL else d + MAXU32VAL + TWO32;
    }
  }

  lemma {:induction false} Subcount64CorrectIff(newval: u64, oldval: u64)
    ensures Subcount64(newval, oldval) == Wrap64(newval - oldval) <==> newval >= oldval
    ensures newval < oldval ==> Subcount64(newval, oldval) == Wrap64(Wrap64(newval - oldval) + MAXU64VAL)
  {
    if newval < oldval {
      var d := newval - oldval;
      assert Wrap64(d) == d + TWO64;
      assert Wrap64(d + MAXU64VAL) == if d + MAXU64VAL >= 0 then d + MAXU64VAL else d + MAXU64VAL + TWO64;
    }
  }

  /** A counter of 32 bits that overflows by one tick seems to have moved by more than 286 million. */
  lemma {:induction false} OverflowByOne()
    ensures Subcount(0, 4294967295) == 286331154 && Subcount64(0, 18446744073709551615) == 1229782938247303442
  {
  }

  // ------------------------------------------------- sequences of samples

  function Last(s: seq<int>): int
    requires s != []
  {
    s[|s| - 1]
  }

  /** The sum of the results for consecutive samples. */
  function Deltas(s: seq<u32>): nat {
    if |s| < 2 then 0 else Deltas(s[..|s| - 1]) + Subcount(s[|s| - 1], s[|s| - 2])
  }

  function Deltas64(s: seq<u64>): nat {
    if |s| < 2 then 0 else Deltas64(s[..|s| - 1]) + Subcount64(s[|s| - 1], s[|s| - 2])
  }

  /** How often a sample falls by more than `over` below the one before it. */
  function Falls(s: seq<int>, over: int): nat {
    if |s| < 2 then 0
    else Falls(s[..|s| - 1], over) + (if s[|s| - 2] - s[|s| - 1] > over then 1 else 0)
  }

  /**
   The exact value of the sum: net change, plus the wrap constant for every drop, plus
   the width for every drop that exceeds the wrap constant.
   */
  lemma {:induction false} DeltasExact(s: seq<u32>)
    requires s != []
    ensures Deltas(s) == Last(s) - s[0] + Falls(s, 0) * MAXU32VAL + Falls(s, MAXU32VAL) * TWO32
  {
    if |s| >= 2 {
      var t := s[..|s| - 1];
      DeltasExact(t);
      var a, b := s[|s| - 2], s[|s| - 1];
      if b < a {
        var d := MAXU32VAL - a + b;
        assert Wrap32(d) == if d >= 0 then d else d + TWO32;
      }
    }
  }

  lemma {:induction false} DeltasExact64(s: seq<u64>)
    requires s != []
    ensures Deltas64(s) == Last(s) - s[0] + Falls(s, 0) * MAXU64VAL + Falls(s, MAXU64VAL) * TWO64
  {
    if |s| >= 2 {
      var t := s[..|s| - 1];
      DeltasExact64(t);
      var a, b := s[|s| - 2], s[|s| - 1];
      if b < a {
        var d := MAXU64VAL - a + b;
        assert Wrap64(d) == if d >= 0 then d else d + TWO64;
      }
    }
  }

  /**
   Telescoping for any samples: modulo the width, the results sum to last minus first
   plus one wrap constant a drop; with no drop the sum is the exact difference.
   */
  lemma {:induction false} SubcountTelescopes(s: seq<u32>)
    requires s != []
    ensures Deltas(s) % TWO32 == (Last(s) - s[0] + Falls(s, 0) * MAXU32VAL) % TWO32
    ensures Falls(s, 0) == 0 ==> Deltas(s) == Last(s) - s[0]
  {
    DeltasExact(s);
    AddMultiple(Last(s) - s[0] + Falls(s, 0) * MAXU32VAL, Falls(s, MAXU32VAL), TWO32);
    FallsMonotone(s, 0, MAXU32VAL);
  }

  lemma {:induction false} Subcount64Telescopes(s: seq<u64>)
    requires s != []
    ensures Deltas64(s) % TWO64 == (Last(s) - s[0] + Falls(s, 0) * MAXU64VAL) % TWO64
    ensures Falls(s, 0) == 0 ==> Deltas64(s) == Last(s) - s[0]
  {
    DeltasExact64(s);
    AddMultiple(Last(s) - s[0] + Falls(s, 0) * MAXU64VAL, Falls(s, MAXU64VAL), TWO64);
    FallsMonotone(s, 0, MAXU64VAL);
  }

  lemma {:induction false} FallsMonotone(s: seq<int>, low: int, high: int)
    requires low <= high
    ensures Falls(s, high) <= Falls(s, low)
  {
    if |s| >= 2 {
      FallsMonotone(s[..|s| - 1], low, high);
    }
  }

  // ------------------------------------------------------------- page sizes

  /** The floor of log2 of the page size in kB; 0 for less than a kB and for a failed `sysconf`. */
  predicate ShiftOf(pagesize: int, shift: nat) {
    if pagesize < 1024 then shift == 0
    else Pow2(shift) * 1024 <= pagesize < Pow2(shift + 1) * 1024
  }

  /** `get_kb_shift`. */
  method GetKbShift(pagesize: int) returns (shift: nat)
    requires pagesize >= -1
    ensures ShiftOf(pagesize, shift)
  {
    shift := 0;
    var size := pagesize / 1024;  // an arithmetic shift: -1 stays -1
    ghost var top := size;
    while size > 1
      invariant top <= 1 ==> size == top && shift == 0
      invariant top >= 1 ==> size >= 1 && size * Pow2(shift) <= top < (size + 1) * Pow2(shift)
    {
      HalfBounds(top, size, Pow2(shift));
      shift := shift + 1;
      size := size / 2;
    }
  }

  lemma {:induction false} HalfBounds(top: int, size: int, p: nat)
    requires size > 1 && size * p <= top < (size + 1) * p
    ensures size / 2 >= 1 && (size / 2) * (2 * p) <= top < (size / 2 + 1) * (2 * p)
  {
    var h := size / 2;
    assert 2 * h <= size <= 2 * h + 1;
    assert (2 * h) * p <= size * p;
    assert (size + 1) * p <= (2 * h + 2) * p;
    assert h * (2 * p) == (2 * h) * p && (h + 1) * (2 * p) == (2 * h + 2) * p;
  }

  function Multiplied(a: int, b: int): int {
    a * b
  }

  /** So many kilobytes a page give the right number of bytes for any number of pages. */
  ghost predicate ConvertsExactly(pagesize: nat, kb: nat) {
    forall pages: nat :: Multiplied(pages, kb) * 1024 == Multiplied(pages, pagesize)
  }

  lemma {:induction false} ConvertsExactlyIff(pagesize: nat, kb: nat)
    ensures ConvertsExactly(pagesize, kb) <==> pagesize == kb * 1024
  {
    if pagesize != kb * 1024 {
      assert Multiplied(1, kb) * 1024 != Multiplied(1, pagesize);
    } else {
      forall pages: nat
        ensures Multiplied(pages, kb) * 1024 == Multiplied(pages, pagesize)
      {
        assert pages * (kb * 1024) == pages * kb * 1024;
      }
    }
  }

  ghost predicate PowerOfTwoKb(pagesize: nat) {
    exists k: nat :: pagesize == Pow2(k) * 1024
  }

  /** `PG_TO_KB` converts exactly iff the page is a power of two of kilobytes. */
  lemma {:induction false} PagesToKbExactIff(pagesize: nat, shift: nat)
    requires ShiftOf(pagesize, shift)
    ensures ConvertsExactly(pagesize, Pow2(shift)) <==> PowerOfTwoKb(pagesize)
  {
    ConvertsExactlyIff(pagesize, Pow2(shift));
    if k: nat :| pagesize == Pow2(k) * 1024 {
      Pow2Monotone(0, k);
      Pow2Between(k, shift);
    }
  }

  lemma {:induction false} Pow2Between(k: nat, shift: nat)
    requires Pow2(shift) <= Pow2(k) < Pow2(shift + 1)
    ensures k == shift
  {
    if k < shift {
      Pow2Monotone(k + 1, shift);
      Pow2Monotone(0, k);
    } else if k > shift {
      Pow2Monotone(shift + 1, k);
    }
  }
}
