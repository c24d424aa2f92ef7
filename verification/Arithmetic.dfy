/** Integer facts shared by the other modules. */
module Arithmetic {

  function Max(a: int, b: int): int {
    if a > b then a else b
  }

  function Min(a: int, b: int): int {
    if a < b then a else b
  }

  function Pow2(n: nat): nat {
    if n == 0 then 1 else 2 * Pow2(n - 1)
  }

  lemma {:induction false} Pow2Monotone(a: nat, b: nat)
    requires a <= b
    ensures Pow2(a) <= Pow2(b)
  {
    if a < b {
      Pow2Monotone(a, b - 1);
    }
  }

  lemma {:induction false} AddMultiple(x: int, n: int, m: int)
    requires m > 0
    ensures (x + n * m) % m == x % m
  {
    var q := x / m;
    assert x + n * m == (q + n) * m + x % m;
    DivModUnique(x + n * m, q + n, x % m, m);
  }

  lemma {:induction false} MultipleGrows(e: int, m: int)
    requires m > 0
    ensures e >= 1 ==> e * m >= m
    ensures e <= -1 ==> e * m <= -m
  {
    if e >= 1 {
      assert (e - 1) * m >= 0;
    } else if e <= -1 {
      assert (-e - 1) * m >= 0;
    }
  }

  lemma {:induction false} DivModUnique(x: int, q: int, r: int, m: int)
    requires m > 0 && 0 <= r < m && x == q * m + r
    ensures x % m == r && x / m == q
  {
    var a, b := x / m, x % m;
    assert x == a * m + b && 0 <= b < m;
    assert (q - a) * m == b - r;
    MultipleGrows(q - a, m);
  }
}
