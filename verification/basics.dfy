/** What several modules share. */
module Basics {

  datatype Option<+T> = None | Some(value: T)

  type Byte = b: int | 0 <= b < 256
  type Nibble = n: int | 0 <= n < 16

  const U64 := 0x1_0000_0000_0000_0000
  const WORD := 0x1_0000_0000_0000_0000_0000_0000_0000_0000_0000_0000_0000_0000_0000_0000_0000_0000

  // ----- powers of two ------------------------------------------------------------------------------

  function Pow2(n: nat): (r: nat)
    ensures r >= 1
  {
    if n == 0 then 1 else 2 * Pow2(n - 1)
  }

  lemma {:induction false} Pow2Add(m: nat, n: nat)
    ensures Pow2(m + n) == Pow2(m) * Pow2(n)
    decreases m
  {
    if m > 0 { Pow2Add(m - 1, n); }
  }

  /** The sizes that occur; `n` keeps the exponents symbolic. */
  lemma Pow2Byte(n: nat)
    requires n == 8
    ensures Pow2(n) == 256
  {
  }

  lemma Pow2Limb(n: nat)
    requires n == 64
    ensures Pow2(n) == U64
  {
    var k := n / 8;
    Pow2Byte(k);
    Pow2Twice(k, 256);
    Pow2Twice(2 * k, 0x10000);
    Pow2Twice(4 * k, 0x100000000);
  }

  lemma Pow2Twice(k: nat, p: nat)
    requires Pow2(k) == p
    ensures Pow2(2 * k) == p * p
  {
    Pow2Add(k, k);
  }

  lemma {:induction false} Pow2Monotone(m: nat, n: nat)
    requires m <= n
    ensures Pow2(m) <= Pow2(n)
    decreases n
  {
    if m < n { Pow2Monotone(m, n - 1); }
  }
}
