// Sixty-four-bit durations in nanoseconds, and the arithmetic on them that Go
// performs silently modulo 2^64.
module Durations {
  const MAX_INT64: int := 0x7fff_ffff_ffff_ffff
  const MIN_INT64: int := -0x8000_0000_0000_0000
  const TWO_TO_64: int := 0x1_0000_0000_0000_0000

  type Duration = x: int | MIN_INT64 <= x <= MAX_INT64

  const SECOND: Duration := 1_000_000_000

  // The value a 64-bit signed register holds after computing x.
  function Wrap(x: int): (d: Duration)
    ensures MIN_INT64 <= x <= MAX_INT64 ==> d == x
    ensures exists q :: d == x + q * TWO_TO_64
  {
    var r := x % TWO_TO_64;
    var q := x / TWO_TO_64;
    assert r == x + (-q) * TWO_TO_64;
    if r <= MAX_INT64 then r
    else
      assert r - TWO_TO_64 == x + (-q - 1) * TWO_TO_64;
      r - TWO_TO_64
  }

  function Min(a: int, b: int): int { if a < b then a else b }

  function Max(a: int, b: int): int { if a < b then b else a }

  function Sum(s: seq<int>): int
  {
    if s == [] then 0 else Sum(s[..|s| - 1]) + s[|s| - 1]
  }

  lemma {:induction false} MulSucc(k: int, x: int)
    ensures (k + 1) * x == k * x + x
  {}

  lemma {:induction false} MulSuccRight(k: int, x: int)
    ensures k * (x + 1) == k * x + k
  {}

  lemma {:induction false} MulMonotone(a: int, b: int, x: int)
    requires a <= b && x >= 0
    ensures a * x <= b * x
  {
    assert b * x == a * x + (b - a) * x;
  }

  lemma {:induction false} ModSmall(a: nat, b: int)
    requires a < b
    ensures a % b == a
  {}

  lemma {:induction false} SumSnoc(s: seq<int>, x: int)
    ensures Sum(s + [x]) == Sum(s) + x
  {
    assert (s + [x])[..|s|] == s;
  }

  function Pow2(n: nat): (p: int)
    ensures p >= 1
  {
    if n == 0 then 1 else 2 * Pow2(n - 1)
  }

  lemma {:induction false} Pow2Monotone(m: nat, n: nat)
    requires m <= n
    ensures Pow2(m) <= Pow2(n)
    decreases n
  {
    if m < n {
      Pow2Monotone(m, n - 1);
    }
  }

  lemma {:induction false} Pow2Add(m: nat, n: nat)
    ensures Pow2(m + n) == Pow2(m) * Pow2(n)
  {
    if m > 0 {
      Pow2Add(m - 1, n);
      assert Pow2(m + n) == 2 * (Pow2(m - 1) * Pow2(n)) == (2 * Pow2(m - 1)) * Pow2(n);
    }
  }

  lemma {:induction false} Pow2Of29()
    ensures Pow2(29) == 0x2000_0000
  {
    assert Pow2(4) == 16 by { assert Pow2(2) == 4; }
    Pow2Add(4, 4);
    Pow2Add(8, 8);
    Pow2Add(16, 8);
    Pow2Add(24, 4);
    assert Pow2(29) == 2 * Pow2(28);
  }

  // 2^29 seconds still fits, with room to spare, in 64 bits.
  lemma {:induction false} Pow2Below30(n: nat)
    requires n < 30
    ensures Pow2(n) * SECOND <= 0x2000_0000 * SECOND <= MAX_INT64
  {
    Pow2Of29();
    Pow2Monotone(n, 29);
  }
}
