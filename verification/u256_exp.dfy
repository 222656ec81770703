/** Exponentiation: square and multiply from the top bit, with a sentinel bit instead of
    a counter. */
module Exponentiation {
  import opened Basics
  import opened U256

  function Pow(b: nat, e: nat): nat {
    if e == 0 then 1 else b * Pow(b, e - 1)
  }

  lemma {:induction false} PowAdd(b: nat, m: nat, n: nat)
    ensures Pow(b, m + n) == Pow(b, m) * Pow(b, n)
    decreases m
  {
    if m > 0 {
      PowAdd(b, m - 1, n);
      assert b * (Pow(b, m - 1) * Pow(b, n)) == b * Pow(b, m - 1) * Pow(b, n);
    }
  }

  /** The multiplier's contract: the low 256 bits of the product. */
  function Mul(a: nat, b: nat): nat { (a * b) % WORD }

  /** `acc` holds a power of the base. */
  predicate Holds(acc: nat, base: nat, e: nat) {
    acc == Pow(base, e) % WORD
  }

  lemma Squared(acc: nat, base: nat, e: nat)
    requires Holds(acc, base, e)
    ensures Holds(Mul(acc, acc), base, 2 * e)
  {
    var p := Pow(base, e);
    ModTimes(p, acc, WORD);
    ModTimes(p, p, WORD);
    assert p * acc == acc * p;
    PowAdd(base, e, e);
  }

  lemma Multiplied(acc: nat, base: nat, e: nat)
    requires Holds(acc, base, e)
    ensures Holds(Mul(acc, base), base, e + 1)
  {
    ModTimes(Pow(base, e), base, WORD);
  }

  // ----- the sentinel ----------------------------------------------------------------------------------

  /** `c` bits still to go, then a one, then zeros. */
  function Sentinel(rest: nat, c: nat): nat
    requires c <= 63
  {
    rest * Pow2(64 - c) + Pow2(63 - c)
  }

  const DONE := 0x8000_0000_0000_0000

  lemma NoBitsLeft()
    ensures Sentinel(0, 0) == DONE
  {
    var n := 63;
    Pow2Limb(n + 1);
  }

  /** With bits left, the word is not the finished one; its top bit is the next bit, and
      one shift moves on. */
  lemma NextBit(rest: nat, c: nat, t: nat)
    requires 1 <= c <= 63 && rest < Pow2(c) && t == Sentinel(rest, c)
    ensures t < B && t != DONE
    ensures t >= DONE <==> rest >= Pow2(c - 1)
    ensures (2 * t) % B == Sentinel(if rest >= Pow2(c - 1) then rest - Pow2(c - 1) else rest, c - 1)
  {
    var u := Pow2(63 - c);
    var h := Pow2(c - 1);
    assert Pow2(64 - c) == 2 * u;
    Pow2Add(c, 64 - c);
    Pow2Limb(c + (64 - c));
    assert Pow2(c) == 2 * h;
    assert 2 * h * (2 * u) == B;
    SentinelStep(rest, h, u, t);
    assert Pow2(64 - (c - 1)) == 2 * (2 * u);
  }

  lemma SentinelStep(rest: nat, h: nat, u: nat, t: nat)
    requires h >= 1 && u >= 1 && 2 * h * (2 * u) == B && rest < 2 * h && t == rest * (2 * u) + u
    ensures t < B && t != DONE
    ensures t >= DONE <==> rest >= h
    ensures (2 * t) % B == (if rest >= h then rest - h else rest) * (2 * (2 * u)) + 2 * u
  {
    var low := if rest >= h then rest - h else rest;
    var bit := if rest >= h then 1 else 0;
    var a := low * (2 * u);
    LowBits63(rest, h, u, low, bit, a);
    SentinelArith(a, u, bit, t);
    assert low * (2 * (2 * u)) == 2 * a;
  }

  lemma LowBits63(rest: nat, h: nat, u: nat, low: nat, bit: nat, a: nat)
    requires h >= 1 && u >= 1 && 2 * h * (2 * u) == B && low < h && rest == low + bit * h && bit <= 1
    requires a == low * (2 * u)
    ensures rest * (2 * u) == a + bit * DONE && a + 2 * u <= DONE
  {
    var v := 2 * u;
    assert h * v == DONE;
    assert (low + 1) * v <= h * v;
    assert (low + 1) * v == low * v + v;
    assert (low + h) * v == low * v + h * v;
  }

  lemma SentinelArith(a: nat, u: nat, bit: nat, t: nat)
    requires u >= 1 && bit <= 1 && a + 2 * u <= DONE && t == a + bit * DONE + u
    ensures t < B && t != DONE && (t >= DONE <==> bit == 1)
    ensures (2 * t) % B == 2 * a + 2 * u
  {
    QuotientUnique(2 * t, B, bit, 2 * a + 2 * u);
  }

  /** The bits below the top one, until the sentinel arrives there. */
  method BitsBelow(acc0: nat, base: nat, t0: nat, ghost rest0: nat, ghost c0: nat, ghost e: nat) returns (acc: nat)
    requires c0 <= 63 && rest0 < Pow2(c0) && t0 == Sentinel(rest0, c0) && Holds(acc0, base, e)
    ensures Holds(acc, base, e * Pow2(c0) + rest0)
  {
    acc := acc0;
    var t := t0;
    ghost var rest: nat, c: nat, done: nat := rest0, c0, e;
    NoBitsLeft();
    assert e * Pow2(c0) + rest0 == done * Pow2(c) + rest;
    while t != DONE
      invariant c <= 63 && rest < Pow2(c) && t == Sentinel(rest, c) && Holds(acc, base, done)
      invariant done * Pow2(c) + rest == e * Pow2(c0) + rest0
      decreases c
    {
      assert c == 0 ==> rest == 0;
      NextBit(rest, c, t);
      Squared(acc, base, done);
      acc := Mul(acc, acc);
      BitMoves(done, rest, c);
      done := 2 * done;
      if t >= DONE {
        Multiplied(acc, base, done);
        acc := Mul(acc, base);
        done := done + 1;
        rest := rest - Pow2(c - 1);
      }
      t := (2 * t) % B;
      c := c - 1;
    }
    Finished(rest, c, t);
  }

  lemma BitMoves(done: nat, rest: nat, c: nat)
    requires c >= 1
    ensures (2 * done) * Pow2(c - 1) + rest == done * Pow2(c) + rest
    ensures (2 * done + 1) * Pow2(c - 1) + (rest - Pow2(c - 1)) == done * Pow2(c) + rest
  {
    var p := Pow2(c - 1);
    assert (2 * done + 1) * p == 2 * done * p + p;
    assert (2 * done) * p == done * (2 * p);
  }

  lemma Finished(rest: nat, c: nat, t: nat)
    requires c <= 63 && rest < Pow2(c) && t == Sentinel(rest, c) && t == DONE
    ensures c == 0 && rest == 0
  {
    if c >= 1 {
      NextBit(rest, c, t);
    }
  }

  // ----- one limb ----------------------------------------------------------------------------------------

  lemma LimbSentinel(e: Limb)
    ensures var rest := if e >= DONE then e - DONE else e;
            (2 * e + 1) % B == Sentinel(rest, 63) && rest < Pow2(63)
  {
    var n := 63;
    Pow2Limb(n + 1);
    assert Pow2(0) == 1 && Pow2(1) == 2;
    var rest := if e >= DONE then e - DONE else e;
    QuotientUnique(2 * e + 1, B, if e >= DONE then 1 else 0, 2 * rest + 1);
  }

  /** A limb below the first one: all 64 bits. */
  method WholeLimb(acc0: nat, base: nat, e: Limb, ghost high: nat) returns (acc: nat)
    requires Holds(acc0, base, high)
    ensures Holds(acc, base, high * B + e)
  {
    LimbSentinel(e);
    var t := (2 * e + 1) % B;
    Squared(acc0, base, high);
    acc := Mul(acc0, acc0);
    ghost var done, rest := 2 * high, if e >= DONE then e - DONE else e;
    if e >= DONE {
      Multiplied(acc, base, done);
      acc := Mul(acc, base);
      done := done + 1;
    }
    acc := BitsBelow(acc, base, t, rest, 63, done);
    var n := 63;
    Pow2Limb(n + 1);
    assert Pow2(n) == DONE;
  }

  /** Skipping leading zeros keeps the two words in step. */
  lemma Normalised(e: nat, k: nat, t: nat)
    requires 1 <= e && k <= 63 && DONE <= e * Pow2(k) < B && t == ((2 * e + 1) * Pow2(k)) % B
    ensures Pow2(63 - k) <= e < 2 * Pow2(63 - k)
    ensures t == Sentinel(e - Pow2(63 - k), 63 - k)
  {
    var p, h := Pow2(k), Pow2(63 - k);
    Pow2Add(k, 63 - k);
    var n := 63;
    Pow2Limb(n + 1);
    assert p * h == DONE;
    assert Pow2(64 - (63 - k)) == 2 * p;
    NormalisedParts(e, p, h, t);
  }

  lemma NormalisedParts(e: nat, p: nat, h: nat, t: nat)
    requires p >= 1 && h >= 1 && p * h == DONE && DONE <= e * p < B && t == ((2 * e + 1) * p) % B
    ensures h <= e < 2 * h
    ensures t == (e - h) * (2 * p) + p
  {
    TopBitRange(e, p, h);
    TopBitProduct(e - h, p, h);
    QuotientUnique((2 * e + 1) * p, B, 1, (e - h) * (2 * p) + p);
  }

  lemma TopBitRange(e: nat, p: nat, h: nat)
    requires p >= 1 && h >= 1 && p * h == DONE && DONE <= e * p < B
    ensures h <= e < 2 * h
  {
    assert e <= h - 1 ==> e * p <= (h - 1) * p;
    assert (h - 1) * p == p * h - p;
    assert e >= 2 * h ==> e * p >= (2 * h) * p;
    assert (2 * h) * p == 2 * (p * h);
  }

  lemma TopBitProduct(rest: nat, p: nat, h: nat)
    requires p >= 1 && rest < h && p * h == DONE
    ensures (2 * (rest + h) + 1) * p == B + (rest * (2 * p) + p)
    ensures rest * (2 * p) + p < B
  {
    assert (2 * (rest + h) + 1) * p == rest * (2 * p) + 2 * (p * h) + p;
    assert rest * (2 * p) <= (h - 1) * (2 * p) == 2 * (p * h) - 2 * p;
  }

  /** The first limb that is not zero: from its top set bit. */
  method FirstLimb(base: nat, e: Limb) returns (acc: nat)
    requires e != 0
    ensures Holds(acc, base, e)
  {
    var word: Limb := e;
    var t: Limb := (2 * e + 1) % B;
    ghost var k := 0;
    assert Pow2(0) == 1;
    while word < DONE
      invariant k <= 63 && word == e * Pow2(k) && t == ((2 * e + 1) * Pow2(k)) % B
      decreases B - word
    {
      ShiftOn(e, k, word, t);
      word := 2 * word;
      t := (2 * t) % B;
      k := k + 1;
    }
    Normalised(e, k, t);
    acc := Mul(1, 1);
    assert Holds(acc, base, 0);
    Multiplied(acc, base, 0);
    acc := Mul(acc, base);
    ghost var h := Pow2(63 - k);
    acc := BitsBelow(acc, base, t, e - h, 63 - k, 1);
  }

  lemma ShiftOn(e: nat, k: nat, word: nat, t: nat)
    requires 1 <= e && word == e * Pow2(k) < DONE && k <= 63 && t == ((2 * e + 1) * Pow2(k)) % B
    ensures k + 1 <= 63 && 2 * word == e * Pow2(k + 1)
    ensures (2 * t) % B == ((2 * e + 1) * Pow2(k + 1)) % B
  {
    var p := Pow2(k);
    AtLeast(e, p);
    if k == 63 {
      Pow2Limb(k + 1);
    }
    DoubleShift(e, p, t);
  }

  lemma AtLeast(e: nat, p: nat)
    requires e >= 1
    ensures e * p >= p
  {
  }

  lemma DoubleShift(e: nat, p: nat, t: nat)
    requires t == ((2 * e + 1) * p) % B
    ensures 2 * (e * p) == e * (2 * p)
    ensures (2 * t) % B == ((2 * e + 1) * (2 * p)) % B
  {
    var x := (2 * e + 1) * p;
    ModTimes(x, 2, B);
    assert x * 2 == (2 * e + 1) * (2 * p);
  }

  // ----- all limbs -----------------------------------------------------------------------------------------

  /** The number the limbs from `w` up spell. */
  function From(x: seq<Limb>, w: nat): nat
    requires Four(x) && w <= 4
    decreases 4 - w
  {
    if w == 4 then 0 else From(x, w + 1) * B + x[w]
  }

  lemma FromAll(x: seq<Limb>)
    requires Four(x)
    ensures From(x, 0) == Value(x)
  {
    assert From(x, 4) == 0;
    assert From(x, 3) == x[3];
    assert From(x, 2) == From(x, 3) * B + x[2];
    assert From(x, 1) == From(x, 2) * B + x[1];
    assert From(x, 0) == From(x, 1) * B + x[0];
  }

  /** base to the exponent, modulo 2^256; the result may be stored over either operand. */
  method Exp(base: array<Limb>, exponent: array<Limb>, result: array<Limb>)
    requires base.Length == exponent.Length == result.Length == 4
    modifies result
    ensures Value(result[..]) == Pow(old(Value(base[..])), old(Value(exponent[..]))) % WORD
  {
    var acc := Power(Value(base[..]), exponent[..]);
    Store(result, ToLimbs(acc % WORD));
    LimbsValue(acc % WORD);
  }

  /** Square and multiply from the top bit down. */
  method Power(b: nat, x: seq<Limb>) returns (acc: nat)
    requires Four(x)
    ensures Holds(acc, b, Value(x))
  {
    acc := 1;
    var w := SkipZeros(x);
    if w > 0 {
      w := w - 1;
      acc := FirstLimb(b, x[w]);
      assert From(x, w) == x[w];
      while w > 0
        invariant 0 <= w < 4 && Holds(acc, b, From(x, w))
      {
        acc := WholeLimb(acc, b, x[w - 1], From(x, w));
        w := w - 1;
      }
    } else {
      assert Pow(b, 0) == 1;
    }
    FromAll(x);
  }

  /** The limbs from `w` up are all zero, and the one below, if there is one, is not. */
  method SkipZeros(x: seq<Limb>) returns (w: nat)
    requires Four(x)
    ensures w <= 4 && From(x, w) == 0 && (w > 0 ==> x[w - 1] != 0)
  {
    w := 4;
    while w > 0 && x[w - 1] == 0
      invariant 0 <= w <= 4 && From(x, w) == 0
    {
      w := w - 1;
    }
  }

  function ToLimbs(v: nat): seq<Limb>
    requires v < WORD
  {
    [v % B, (v / B) % B, (v / B2) % B, v / B3]
  }

  lemma LimbsValue(v: nat)
    requires v < WORD
    ensures Four(ToLimbs(v)) && Value(ToLimbs(v)) == v
  {
    assert v / B2 == (v / B) / B;
    assert v / B3 == (v / B2) / B;
  }
}
