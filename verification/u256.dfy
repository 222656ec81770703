/** 256-bit numbers in four 64-bit limbs, least significant first. */
module U256 {
  import opened Basics

  const B := 0x1_0000_0000_0000_0000
  const B2 := 0x1_0000_0000_0000_0000_0000_0000_0000_0000
  const B3 := 0x1_0000_0000_0000_0000_0000_0000_0000_0000_0000_0000_0000_0000

  type Limb = x: int | 0 <= x < B

  predicate Four(x: seq<Limb>) { |x| == 4 }

  function Value(x: seq<Limb>): (v: nat)
    requires Four(x)
    ensures v < WORD
  {
    x[0] + x[1] * B + x[2] * B2 + x[3] * B3
  }

  /** Two's complement reading. */
  function Signed(x: seq<Limb>): int
    requires Four(x)
  {
    if x[3] >= B / 2 then Value(x) - WORD else Value(x)
  }

  lemma Pow2Word(n: nat)
    requires n == 64
    ensures Pow2(n) == B && Pow2(2 * n) == B2 && Pow2(3 * n) == B3 && Pow2(4 * n) == WORD
  {
    Pow2Limb(n);
    Pow2Add(n, n);
    Pow2Add(2 * n, n);
    Pow2Add(3 * n, n);
  }

  // ----- bits of a number -----------------------------------------------------------------------------

  function Or(a: nat, b: nat): nat {
    if a == 0 && b == 0 then 0
    else 2 * Or(a / 2, b / 2) + if a % 2 == 1 || b % 2 == 1 then 1 else 0
  }

  function And(a: nat, b: nat): nat {
    if a == 0 || b == 0 then 0
    else 2 * And(a / 2, b / 2) + if a % 2 == 1 && b % 2 == 1 then 1 else 0
  }

  function Not64(x: Limb): Limb { B - 1 - x }

  /** Numbers without a common bit: their or is their sum. */
  lemma {:induction false} OrIsSum(a: nat, b: nat, k: nat)
    requires a % Pow2(k) == 0 && b < Pow2(k)
    ensures Or(a, b) == a + b
    decreases k, a
  {
    if a == 0 && b == 0 {
    } else if k == 0 {
      assert b == 0;
      OrZero(a);
    } else {
      HalfMultiple(a, k);
      OrIsSum(a / 2, b / 2, k - 1);
    }
  }

  lemma {:induction false} OrZero(a: nat)
    ensures Or(a, 0) == a
    decreases a
  {
    if a != 0 { OrZero(a / 2); }
  }

  lemma HalfMultiple(a: nat, k: nat)
    requires k > 0 && a % Pow2(k) == 0
    ensures a % 2 == 0 && (a / 2) % Pow2(k - 1) == 0
  {
    var q := a / Pow2(k);
    var p := Pow2(k - 1);
    assert a == Pow2(k) * q && Pow2(k) == 2 * p;
    assert a == 2 * (p * q);
    assert a / 2 == p * q;
    MultipleMod(p, q);
  }

  lemma MultipleMod(p: nat, q: nat)
    requires p > 0
    ensures (p * q) % p == 0 && (p * q) / p == q
  {
    QuotientUnique(p * q, p, q, 0);
  }

  /** Division is determined by its equation. */
  lemma QuotientUnique(n: int, d: nat, q: int, r: nat)
    requires d > 0 && n == d * q + r && r < d
    ensures n / d == q && n % d == r
  {
    var k := n / d - q;
    assert d * k == r - n % d by {
      assert n == d * (n / d) + n % d;
      assert d * (n / d) - d * q == d * k;
    }
    assert k >= 1 ==> d * k >= d;
    assert k <= -1 ==> d * k <= 0 - d;
  }

  /** Keeping the low bits is a remainder. */
  lemma {:induction false} AndMask(x: nat, k: nat)
    ensures And(x, Pow2(k) - 1) == x % Pow2(k)
    decreases k
  {
    if k > 0 {
      AndMask(x / 2, k - 1);
      MaskStep(x, Pow2(k - 1));
    }
  }

  lemma MaskStep(x: nat, p: nat)
    requires p >= 1
    ensures (2 * p - 1) / 2 == p - 1 && (2 * p - 1) % 2 == 1
    ensures x % (2 * p) == 2 * ((x / 2) % p) + x % 2
  {
    var q, r := (x / 2) / p, (x / 2) % p;
    assert x / 2 == p * q + r;
    assert x == (2 * p) * q + (2 * r + x % 2);
    QuotientUnique(x, 2 * p, q, 2 * r + x % 2);
  }

  lemma {:induction false} AndOnes(x: nat, k: nat)
    requires x < Pow2(k)
    ensures And(Pow2(k) - 1, x) == x
    decreases k
  {
    if k > 0 && x != 0 {
      assert (Pow2(k) - 1) / 2 == Pow2(k - 1) - 1 && (Pow2(k) - 1) % 2 == 1;
      AndOnes(x / 2, k - 1);
    }
  }

  // ----- 64-bit shifts --------------------------------------------------------------------------------

  function Shl64(x: Limb, b: nat): Limb { (x * Pow2(b)) % B }

  function Shr64(x: Limb, b: nat): Limb {
    DivBound(x, Pow2(b));
    x / Pow2(b)
  }

  lemma DivBound(x: nat, p: nat)
    requires p >= 1
    ensures 0 <= x / p <= x
  {
  }

  /** Splitting a limb at a bit: what a left shift by it pushes out and what it keeps. */
  lemma SplitUp(x: nat, p: nat, r: nat)
    requires p >= 1 && r >= 1 && p * r == B && x < B
    ensures x * p == (x % r) * p + (x / r) * B
    ensures (x * p) % B == (x % r) * p && x / r < p
    ensures ((x % r) * p) % p == 0
  {
    var c, m := x / r, x % r;
    assert x == r * c + m;
    assert x * p == B * c + m * p by {
      assert x * p == (r * c) * p + m * p;
      assert (r * c) * p == (p * r) * c;
    }
    assert m * p < B by {
      assert m * p <= (r - 1) * p;
      assert (r - 1) * p == r * p - p;
    }
    QuotientUnique(x * p, B, c, m * p);
    assert m * p == p * m;
    MultipleMod(p, m);
    assert r * c < r * p;
    assert c < p;
  }

  lemma ShiftSizes(b: nat)
    requires 0 < b < 64
    ensures Pow2(b) * Pow2(64 - b) == B
  {
    Pow2Limb(b + (64 - b));
    Pow2Add(b, 64 - b);
  }


  /** Both halves of a double-limb shift joined by an or. */
  lemma Join(hi: nat, lo: nat, p: nat, r: nat, k: nat)
    requires p == Pow2(k) && r >= 1 && p * r == B && hi < B && lo < B
    ensures Or((hi * p) % B, lo / r) == (hi % r) * p + lo / r < B
  {
    SplitUp(hi, p, r);
    SplitUp(lo, p, r);
    OrIsSum((hi * p) % B, lo / r, k);
    JoinBound(hi % r, p, r, lo / r);
  }

  lemma JoinBound(m: nat, p: nat, r: nat, c: nat)
    requires m < r && c < p && p * r == B
    ensures m * p + c < B
  {
    assert m * p <= (r - 1) * p;
    assert (r - 1) * p == r * p - p;
  }

  lemma JoinUp(hi: Limb, lo: Limb, b: nat)
    requires 0 < b < 64
    ensures Or(Shl64(hi, b), Shr64(lo, 64 - b)) == (hi % Pow2(64 - b)) * Pow2(b) + lo / Pow2(64 - b) < B
  {
    ShiftSizes(b);
    Join(hi, lo, Pow2(b), Pow2(64 - b), b);
  }

  lemma JoinDown(lo: Limb, hi: Limb, b: nat)
    requires 0 < b < 64
    ensures Or(Shr64(lo, b), Shl64(hi, 64 - b)) == lo / Pow2(b) + (hi % Pow2(b)) * Pow2(64 - b) < B
  {
    ShiftSizes(b);
    assert Pow2(64 - b) * Pow2(b) == B;
    Join(hi, lo, Pow2(64 - b), Pow2(b), 64 - b);
    OrCommutes(Shr64(lo, b), Shl64(hi, 64 - b));
  }

  lemma {:induction false} OrCommutes(a: nat, b: nat)
    ensures Or(a, b) == Or(b, a)
    decreases a + b
  {
    if a != 0 || b != 0 { OrCommutes(a / 2, b / 2); }
  }

  // ----- shifting left ----------------------------------------------------------------------------------

  /** Limb `i` of the number moved up by `q` limbs. */
  function Up(x: seq<Limb>, q: nat, i: int): Limb
    requires Four(x) && i < 4
  {
    if i - q >= 0 then x[i - q] else 0
  }

  function ShlLimb(x: seq<Limb>, q: nat, b: nat, i: nat): Limb
    requires Four(x) && i < 4 && b < 64
  {
    if b == 0 then Up(x, q, i)
    else
      JoinUp(Up(x, q, i), Up(x, q, i - 1), b);
      Or(Shl64(Up(x, q, i), b), Shr64(Up(x, q, i - 1), 64 - b))
  }

  /** Whole limbs: multiplication by a power of the base. */
  lemma LimbsUp(x: seq<Limb>, q: nat)
    requires Four(x) && q < 4
    ensures Value([Up(x, q, 0), Up(x, q, 1), Up(x, q, 2), Up(x, q, 3)]) == (Value(x) * Pow2(64 * q)) % WORD
  {
    var y := [Up(x, q, 0), Up(x, q, 1), Up(x, q, 2), Up(x, q, 3)];
    var n := 64;
    Pow2Word(n);
    assert Pow2(0) == 1;
    if q == 0 {
      QuotientUnique(Value(x) * 1, WORD, 0, Value(y));
    } else if q == 1 {
      assert 64 * q == n;
      QuotientUnique(Value(x) * B, WORD, x[3], Value(y));
    } else if q == 2 {
      assert 64 * q == 2 * n;
      QuotientUnique(Value(x) * B2, WORD, x[2] + x[3] * B, Value(y));
    } else {
      assert 64 * q == 3 * n;
      QuotientUnique(Value(x) * B3, WORD, x[1] + x[2] * B + x[3] * B2, Value(y));
    }
  }

  /** Single bits: the carries cancel and only the topmost is lost. */
  lemma BitsUp(y: seq<Limb>, z: seq<Limb>, p: nat, r: nat)
    requires Four(y) && Four(z) && p >= 1 && r >= 1 && p * r == B
    requires z[0] == (y[0] % r) * p && z[1] == (y[1] % r) * p + y[0] / r
    requires z[2] == (y[2] % r) * p + y[1] / r && z[3] == (y[3] % r) * p + y[2] / r
    ensures Value(z) == (Value(y) * p) % WORD
  {
    SplitUp(y[0], p, r);
    SplitUp(y[1], p, r);
    SplitUp(y[2], p, r);
    SplitUp(y[3], p, r);
    Distribute(y, p);
    QuotientUnique(Value(y) * p, WORD, y[3] / r, Value(z));
  }

  lemma Distribute(y: seq<Limb>, p: nat)
    requires Four(y)
    ensures Value(y) * p == y[0] * p + (y[1] * p) * B + (y[2] * p) * B2 + (y[3] * p) * B3
  {
    assert (y[1] * B) * p == (y[1] * p) * B;
    assert (y[2] * B2) * p == (y[2] * p) * B2;
    assert (y[3] * B3) * p == (y[3] * p) * B3;
  }

  lemma ModTimes(a: nat, p: nat, m: nat)
    requires m > 0
    ensures ((a % m) * p) % m == (a * p) % m
  {
    var q, r := a / m, a % m;
    assert a * p == m * (q * p) + r * p by {
      assert a * p == (m * q) * p + r * p;
      assert (m * q) * p == m * (q * p);
    }
    var k, t := (r * p) / m, (r * p) % m;
    assert a * p == m * (q * p + k) + t by {
      assert r * p == m * k + t;
      assert m * (q * p + k) == m * (q * p) + m * k;
    }
    QuotientUnique(a * p, m, q * p + k, t);
  }

  lemma ShlBits(x: seq<Limb>, z: seq<Limb>, q: nat, b: nat)
    requires Four(x) && Four(z) && 0 < b < 64
    requires forall i :: 0 <= i < 4 ==> z[i] == ShlLimb(x, q, b, i)
    ensures Value(z) == (Value([Up(x, q, 0), Up(x, q, 1), Up(x, q, 2), Up(x, q, 3)]) * Pow2(b)) % WORD
  {
    var y: seq<Limb> := [Up(x, q, 0), Up(x, q, 1), Up(x, q, 2), Up(x, q, 3)];
    ShiftSizes(b);
    JoinUp(y[0], 0, b);
    JoinUp(y[1], y[0], b);
    JoinUp(y[2], y[1], b);
    JoinUp(y[3], y[2], b);
    DivBound(0, Pow2(64 - b));
    BitsUp(y, z, Pow2(b), Pow2(64 - b));
  }

  lemma ShlMixed(x: seq<Limb>, z: seq<Limb>, q: nat, b: nat)
    requires Four(x) && Four(z) && q < 4 && 0 < b < 64
    requires forall i :: 0 <= i < 4 ==> z[i] == ShlLimb(x, q, b, i)
    ensures Value(z) == (Value(x) * Pow2(64 * q + b)) % WORD
  {
    var y := Value([Up(x, q, 0), Up(x, q, 1), Up(x, q, 2), Up(x, q, 3)]);
    assert y == (Value(x) * Pow2(64 * q)) % WORD by { LimbsUp(x, q); }
    assert Value(z) == (y * Pow2(b)) % WORD by { ShlBits(x, z, q, b); }
    ShlCompose(Value(x), q, b, y);
  }

  lemma ShlWhole(x: seq<Limb>, z: seq<Limb>, q: nat)
    requires Four(x) && Four(z) && q < 4
    requires forall i :: 0 <= i < 4 ==> z[i] == Up(x, q, i)
    ensures Value(z) == (Value(x) * Pow2(64 * q)) % WORD
  {
    LimbsUp(x, q);
    assert z == [Up(x, q, 0), Up(x, q, 1), Up(x, q, 2), Up(x, q, 3)];
  }

  lemma ShlValue(x: seq<Limb>, z: seq<Limb>, s: nat)
    requires Four(x) && Four(z) && s < 256
    requires forall i :: 0 <= i < 4 ==> z[i] == ShlLimb(x, s / 64, s % 64, i)
    ensures Value(z) == (Value(x) * Pow2(s)) % WORD
  {
    if s % 64 == 0 {
      ShlWhole(x, z, s / 64);
    } else {
      ShlMixed(x, z, s / 64, s % 64);
    }
  }

  lemma ShlCompose(v: nat, q: nat, b: nat, y: nat)
    requires y == (v * Pow2(64 * q)) % WORD
    ensures (y * Pow2(b)) % WORD == (v * Pow2(64 * q + b)) % WORD
  {
    Pow2Add(64 * q, b);
    ScaleTwice(v, Pow2(64 * q), Pow2(b), WORD);
  }

  lemma ScaleTwice(v: nat, a: nat, b: nat, m: nat)
    requires m > 0
    ensures (((v * a) % m) * b) % m == (v * (a * b)) % m
  {
    ModTimes(v * a, b, m);
    assert (v * a) * b == v * (a * b);
  }

  // ----- shifting right ---------------------------------------------------------------------------------

  /** Limb `i` of the number moved down by `q` limbs, `fill` coming in at the top. */
  function Down(x: seq<Limb>, q: nat, i: nat, fill: Limb): Limb
    requires Four(x)
  {
    if i + q < 4 then x[i + q] else fill
  }

  function ShrLimb(x: seq<Limb>, q: nat, b: nat, i: nat, fill: Limb): Limb
    requires Four(x) && b < 64
  {
    if b == 0 then Down(x, q, i, fill)
    else
      JoinDown(Down(x, q, i, fill), Down(x, q, i + 1, fill), b);
      Or(Shr64(Down(x, q, i, fill), b), Shl64(Down(x, q, i + 1, fill), 64 - b))
  }

  /** A limb of the result, scaled up again. */
  lemma ScaleBack(y: nat, h: nat, p: nat, r: nat)
    requires p >= 1 && r >= 1 && p * r == B
    ensures (y / p + (h % p) * r) * p == y - y % p + (h % p) * B
  {
    assert y == p * (y / p) + y % p;
    assert ((h % p) * r) * p == (h % p) * (p * r);
    assert (y / p + (h % p) * r) * p == (y / p) * p + ((h % p) * r) * p;
  }

  /** Single bits: each limb hands its low bits to the one below, the lowest drops them. */
  lemma BitsDown(y: seq<Limb>, top: Limb, z: seq<Limb>, p: nat, r: nat)
    requires Four(y) && Four(z) && p >= 1 && r >= 1 && p * r == B
    requires z[0] == y[0] / p + (y[1] % p) * r && z[1] == y[1] / p + (y[2] % p) * r
    requires z[2] == y[2] / p + (y[3] % p) * r && z[3] == y[3] / p + (top % p) * r
    ensures Value(z) * p + y[0] % p == Value(y) + (top % p) * WORD
  {
    ScaleBack(y[0], y[1], p, r);
    ScaleBack(y[1], y[2], p, r);
    ScaleBack(y[2], y[3], p, r);
    ScaleBack(y[3], top, p, r);
    Distribute(z, p);
  }

  lemma ShrBits(x: seq<Limb>, z: seq<Limb>, q: nat, b: nat, fill: Limb)
    requires Four(x) && Four(z) && 0 < b < 64
    requires forall i :: 0 <= i < 4 ==> z[i] == ShrLimb(x, q, b, i, fill)
    ensures var y: seq<Limb> := [Down(x, q, 0, fill), Down(x, q, 1, fill), Down(x, q, 2, fill), Down(x, q, 3, fill)];
            Value(z) * Pow2(b) + y[0] % Pow2(b) == Value(y) + (fill % Pow2(b)) * WORD
  {
    var y: seq<Limb> := [Down(x, q, 0, fill), Down(x, q, 1, fill), Down(x, q, 2, fill), Down(x, q, 3, fill)];
    ShiftSizes(b);
    JoinDown(y[0], y[1], b);
    JoinDown(y[1], y[2], b);
    JoinDown(y[2], y[3], b);
    JoinDown(y[3], fill, b);
    BitsDown(y, fill, z, Pow2(b), Pow2(64 - b));
  }

  /** The weight of everything above the top limb when it is all `fill`. */
  function Above(fill: Limb): int { if fill == 0 then 0 else -WORD }

  /** Dropping limbs off the bottom, as an equation. */
  lemma DropOne(x0: int, x1: int, x2: int, x3: int, fill: Limb)
    requires fill == 0 || fill == B - 1
    ensures x0 + x1 * B + x2 * B2 + x3 * B3 + Above(fill)
         == B * (x1 + x2 * B + x3 * B2 + fill * B3 + Above(fill)) + x0
  {
  }

  lemma DropTwo(x0: int, x1: int, x2: int, x3: int, fill: Limb)
    requires fill == 0 || fill == B - 1
    ensures x0 + x1 * B + x2 * B2 + x3 * B3 + Above(fill)
         == B2 * (x2 + x3 * B + fill * B2 + fill * B3 + Above(fill)) + (x0 + x1 * B)
  {
  }

  lemma DropThree(x0: int, x1: int, x2: int, x3: int, fill: Limb)
    requires fill == 0 || fill == B - 1
    ensures x0 + x1 * B + x2 * B2 + x3 * B3 + Above(fill)
         == B3 * (x3 + fill * B + fill * B2 + fill * B3 + Above(fill)) + (x0 + x1 * B + x2 * B2)
  {
  }

  lemma DroppedBy(v: int, u: int, low: nat, w: nat, e: nat)
    requires w == Pow2(e) && v == w * u + low && low < w
    ensures u == v / Pow2(e)
  {
    QuotientUnique(v, w, u, low);
  }

  /** Whole limbs: division by a power of the base, rounding down. */
  lemma LimbsDown(x: seq<Limb>, q: nat, fill: Limb)
    requires Four(x) && q < 4 && (fill == 0 || fill == B - 1)
    ensures var y: seq<Limb> := [Down(x, q, 0, fill), Down(x, q, 1, fill), Down(x, q, 2, fill), Down(x, q, 3, fill)];
            Value(y) + Above(fill) == (Value(x) + Above(fill)) / Pow2(64 * q)
  {
    var y: seq<Limb> := [Down(x, q, 0, fill), Down(x, q, 1, fill), Down(x, q, 2, fill), Down(x, q, 3, fill)];
    DownParts(x, q, fill);
    WeightPow(q, 0);
    DroppedBy(Value(x) + Above(fill), Value(y) + Above(fill), Below(x, q), Weight(q), 64 * q);
  }

  lemma DownParts(x: seq<Limb>, q: nat, fill: Limb)
    requires Four(x) && q < 4 && (fill == 0 || fill == B - 1)
    ensures var y: seq<Limb> := [Down(x, q, 0, fill), Down(x, q, 1, fill), Down(x, q, 2, fill), Down(x, q, 3, fill)];
            Value(x) + Above(fill) == Weight(q) * (Value(y) + Above(fill)) + Below(x, q)
    ensures Below(x, q) < Weight(q)
  {
    if q == 1 {
      DropOne(x[0], x[1], x[2], x[3], fill);
    } else if q == 2 {
      DropTwo(x[0], x[1], x[2], x[3], fill);
    } else if q == 3 {
      DropThree(x[0], x[1], x[2], x[3], fill);
    }
  }

  lemma FillMod(p: nat, r: nat)
    requires p >= 1 && p * r == B
    ensures (B - 1) % p == p - 1
  {
    assert p * (r - 1) == p * r - p;
    QuotientUnique(B - 1, p, r - 1, p - 1);
  }

  lemma DivTwice(n: int, a: nat, b: nat)
    requires a > 0 && b > 0
    ensures a * b > 0 && n / (a * b) == (n / a) / b
  {
    var q := (n / a) / b;
    var r1, r2 := n % a, (n / a) % b;
    assert n == (a * b) * q + (a * r2 + r1) by {
      assert n / a == b * q + r2;
      assert a * (b * q + r2) == (a * b) * q + a * r2;
    }
    assert 0 <= a * r2 + r1 < a * b by {
      assert a * r2 <= a * (b - 1);
      assert a * (b - 1) == a * b - a;
    }
    QuotientUnique(n, a * b, q, a * r2 + r1);
  }

  lemma ShrMixed(x: seq<Limb>, z: seq<Limb>, q: nat, b: nat, fill: Limb)
    requires Four(x) && Four(z) && q < 4 && 0 < b < 64 && (fill == 0 || fill == B - 1)
    requires forall i :: 0 <= i < 4 ==> z[i] == ShrLimb(x, q, b, i, fill)
    ensures Value(z) + Above(fill) == (Value(x) + Above(fill)) / Pow2(64 * q + b)
  {
    var y: seq<Limb> := [Down(x, q, 0, fill), Down(x, q, 1, fill), Down(x, q, 2, fill), Down(x, q, 3, fill)];
    LimbsDown(x, q, fill);
    ShrQuotient(x, z, q, b, fill);
    ShrCompose(Value(x) + Above(fill), Value(y) + Above(fill), Value(z) + Above(fill), q, b);
  }

  lemma ShrQuotient(x: seq<Limb>, z: seq<Limb>, q: nat, b: nat, fill: Limb)
    requires Four(x) && Four(z) && 0 < b < 64 && (fill == 0 || fill == B - 1)
    requires forall i :: 0 <= i < 4 ==> z[i] == ShrLimb(x, q, b, i, fill)
    ensures var y: seq<Limb> := [Down(x, q, 0, fill), Down(x, q, 1, fill), Down(x, q, 2, fill), Down(x, q, 3, fill)];
            Value(z) + Above(fill) == (Value(y) + Above(fill)) / Pow2(b)
  {
    var y: seq<Limb> := [Down(x, q, 0, fill), Down(x, q, 1, fill), Down(x, q, 2, fill), Down(x, q, 3, fill)];
    ShrBits(x, z, q, b, fill);
    LowBound(y[0], Pow2(b));
    BitsQuotient(Value(y), Value(z), y[0] % Pow2(b), fill, b);
  }

  lemma ShrWhole(x: seq<Limb>, z: seq<Limb>, q: nat, fill: Limb)
    requires Four(x) && Four(z) && q < 4 && (fill == 0 || fill == B - 1)
    requires forall i :: 0 <= i < 4 ==> z[i] == Down(x, q, i, fill)
    ensures Value(z) + Above(fill) == (Value(x) + Above(fill)) / Pow2(64 * q)
  {
    LimbsDown(x, q, fill);
    assert z == [Down(x, q, 0, fill), Down(x, q, 1, fill), Down(x, q, 2, fill), Down(x, q, 3, fill)];
  }

  /** The common loop: floor division of the number with its sign filled in. */
  lemma ShrValue(x: seq<Limb>, z: seq<Limb>, s: nat, fill: Limb)
    requires Four(x) && Four(z) && s < 256 && (fill == 0 || fill == B - 1)
    requires forall i :: 0 <= i < 4 ==> z[i] == ShrLimb(x, s / 64, s % 64, i, fill)
    ensures Value(z) + Above(fill) == (Value(x) + Above(fill)) / Pow2(s)
  {
    if s % 64 == 0 {
      ShrWhole(x, z, s / 64, fill);
    } else {
      ShrMixed(x, z, s / 64, s % 64, fill);
    }
  }

  lemma LowBound(x: nat, p: nat)
    requires p >= 1
    ensures 0 <= x % p < p
  {
  }

  lemma ShrCompose(v: int, u: int, w: int, q: nat, b: nat)
    requires u == v / Pow2(64 * q) && w == u / Pow2(b)
    ensures w == v / Pow2(64 * q + b)
  {
    Pow2Add(64 * q, b);
    DivTwice(v, Pow2(64 * q), Pow2(b));
  }

  lemma BitsQuotient(y: nat, z: nat, low: nat, fill: Limb, b: nat)
    requires 0 < b < 64 && (fill == 0 || fill == B - 1)
    requires low < Pow2(b) && z * Pow2(b) + low == y + (fill % Pow2(b)) * WORD
    ensures z + Above(fill) == (y + Above(fill)) / Pow2(b)
  {
    ShiftSizes(b);
    FillMod(Pow2(b), Pow2(64 - b));
    ZeroMod(Pow2(b));
    BorrowedQuotient(y, z, low, Pow2(b), fill % Pow2(b), Above(fill));
  }

  lemma BorrowedQuotient(y: nat, z: nat, low: nat, p: nat, f: nat, a: int)
    requires low < p && z * p + low == y + f * WORD
    requires (f == 0 && a == 0) || (f == p - 1 && a == -WORD)
    ensures z + a == (y + a) / p
  {
    assert f == p - 1 ==> f * WORD == p * WORD - WORD;
    assert p * (z + a) == z * p + p * a;
    assert y + a == p * (z + a) + low by {
      assert a == 0 ==> p * a == 0;
      assert a == -WORD ==> p * a == 0 - p * WORD;
    }
    QuotientUnique(y + a, p, z + a, low);
  }

  lemma ZeroMod(p: nat)
    requires p >= 1
    ensures 0 % p == 0
  {
  }

  lemma TopBit(x: seq<Limb>)
    requires Four(x)
    ensures x[3] >= B / 2 <==> Value(x) >= WORD / 2
  {
  }

  /** Rounding down a number of at most 256 bits by more than its bits. */
  lemma ShiftedOut(v: int, s: nat)
    requires -WORD <= v < WORD && s >= 256
    ensures v / Pow2(s) == if v < 0 then -1 else 0
  {
    var n := 64;
    Pow2Word(n);
    Pow2Monotone(4 * n, s);
    var p := Pow2(s);
    if v < 0 {
      QuotientUnique(v, p, -1, p + v);
    } else {
      QuotientUnique(v, p, 0, v);
    }
  }

  lemma SarSigned(x: seq<Limb>, z: seq<Limb>, s: nat, fill: Limb)
    requires Four(x) && Four(z) && fill == (if x[3] >= B / 2 then B - 1 else 0)
    requires Value(z) + Above(fill) == (Value(x) + Above(fill)) / Pow2(s)
    ensures Signed(z) == Signed(x) / Pow2(s)
  {
    TopBit(x);
    TopBit(z);
    var v, p := Value(x) + Above(fill), Pow2(s);
    assert v == Signed(x);
    FloorRange(v, p);
  }

  lemma FloorRange(v: int, p: nat)
    requires p >= 1
    ensures v >= 0 ==> 0 <= v / p <= v
    ensures v < 0 ==> v <= v / p <= -1
  {
    QuotientRange(v, p, v / p, v % p);
  }

  lemma QuotientRange(v: int, p: nat, q: int, r: nat)
    requires p >= 1 && v == p * q + r && r < p
    ensures v >= 0 ==> 0 <= q <= v
    ensures v < 0 ==> v <= q <= -1
  {
    if q >= 0 {
      ProductGrows(p, q);
    } else {
      ProductGrows(p, -(q + 1));
      assert p * -(q + 1) == 0 - (p * q + p);
    }
  }

  lemma ProductGrows(p: nat, k: nat)
    requires p >= 1
    ensures p * k >= k
  {
    assert (p - 1) * k >= 0;
    assert p * k == (p - 1) * k + k;
  }

  // ----- the operations -------------------------------------------------------------------------------------

  /** A shift or index operand below `limit` as a plain number; `limit` if it is not. */
  function Small(x: seq<Limb>, limit: nat): nat
    requires Four(x)
  {
    if x[1] == 0 && x[2] == 0 && x[3] == 0 && x[0] < limit then x[0] else limit
  }

  lemma SmallValue(x: seq<Limb>, limit: nat)
    requires Four(x) && limit <= B
    ensures Small(x, limit) == if Value(x) < limit then Value(x) else limit
  {
  }

  /** Results may be written over an operand: they are stored last. */
  method Store(result: array<Limb>, z: seq<Limb>)
    requires result.Length == 4 && Four(z)
    modifies result
    ensures result[..] == z
  {
    for i := 0 to 4
      invariant forall k :: 0 <= k < i ==> result[k] == z[k]
    {
      result[i] := z[i];
    }
  }

  method Shl(shift: array<Limb>, value: array<Limb>, result: array<Limb>)
    requires shift.Length == value.Length == result.Length == 4
    modifies result
    ensures Value(result[..]) == (old(Value(value[..])) * Pow2(old(Value(shift[..])))) % WORD
  {
    var x := value[..];
    var amount := shift[..];
    SmallValue(amount, 256);
    var z: seq<Limb> := [0, 0, 0, 0];
    var s := Small(amount, 256);
    if s < 256 {
      var q, b := s / 64, s % 64;
      var i: int := 3;
      while i >= 0
        invariant -1 <= i <= 3 && Four(z)
        invariant forall k :: i < k < 4 ==> z[k] == ShlLimb(x, q, b, k)
      {
        var hi, lo := Up(x, q, i), Up(x, q, i - 1);
        if b != 0 { JoinUp(hi, lo, b); }
        z := z[i := if b != 0 then Or(Shl64(hi, b), Shr64(lo, 64 - b)) else hi];
        i := i - 1;
      }
      ShlValue(x, z, s);
    } else {
      ShiftedAway(Value(x), Value(amount));
    }
    Store(result, z);
  }

  lemma ShiftedAway(v: nat, s: nat)
    requires s >= 256
    ensures (v * Pow2(s)) % WORD == 0
  {
    var n := 64;
    Pow2Word(n);
    Pow2Add(4 * n, s - 4 * n);
    assert v * (WORD * Pow2(s - 256)) == WORD * (v * Pow2(s - 256));
    MultipleMod(WORD, v * Pow2(s - 256));
  }

  /** The loop shared by the two right shifts. */
  method ShiftDown(x: seq<Limb>, s: nat, fill: Limb) returns (z: seq<Limb>)
    requires Four(x) && s < 256 && (fill == 0 || fill == B - 1)
    ensures Four(z) && Value(z) + Above(fill) == (Value(x) + Above(fill)) / Pow2(s)
  {
    var q, b := s / 64, s % 64;
    z := [0, 0, 0, 0];
    for i := 0 to 4
      invariant Four(z) && forall k :: 0 <= k < i ==> z[k] == ShrLimb(x, q, b, k, fill)
    {
      var lo: Limb := if i + q < 4 then x[i + q] else fill;
      var hi: Limb := if i + q + 1 < 4 then x[i + q + 1] else fill;
      if b != 0 { JoinDown(lo, hi, b); }
      z := z[i := if b != 0 then Or(Shr64(lo, b), Shl64(hi, 64 - b)) else lo];
    }
    ShrValue(x, z, s, fill);
  }

  method Shr(shift: array<Limb>, value: array<Limb>, result: array<Limb>)
    requires shift.Length == value.Length == result.Length == 4
    modifies result
    ensures Value(result[..]) == old(Value(value[..])) / Pow2(old(Value(shift[..])))
  {
    var x := value[..];
    var amount := shift[..];
    SmallValue(amount, 256);
    var z: seq<Limb> := [0, 0, 0, 0];
    var s := Small(amount, 256);
    if s < 256 {
      z := ShiftDown(x, s, 0);
    } else {
      ShiftedOut(Value(x), Value(amount));
    }
    Store(result, z);
  }

  method Sar(shift: array<Limb>, value: array<Limb>, result: array<Limb>)
    requires shift.Length == value.Length == result.Length == 4
    modifies result
    ensures Signed(result[..]) == old(Signed(value[..])) / Pow2(old(Value(shift[..])))
  {
    var x := value[..];
    var amount := shift[..];
    SmallValue(amount, 256);
    var fill: Limb := if x[3] >= B / 2 then B - 1 else 0;
    var z: seq<Limb>;
    var s := Small(amount, 256);
    if s < 256 {
      z := ShiftDown(x, s, fill);
    } else {
      z := [fill, fill, fill, fill];
      TopBit(x);
      ShiftedOut(Value(x) + Above(fill), Value(amount));
    }
    SarSigned(x, z, Value(amount), fill);
    Store(result, z);
  }

  // ----- subtraction ------------------------------------------------------------------------------------------

  /** The adder's contract: sum and carry of two numbers and a carry. */
  function Sum256(a: seq<Limb>, b: seq<Limb>, carry: nat): nat
    requires Four(a) && Four(b)
  {
    (Value(a) + Value(b) + carry) % WORD
  }

  /** `a - b` is `a + ~b + 1`. */
  method Sub(a: array<Limb>, b: array<Limb>) returns (difference: nat)
    requires a.Length == b.Length == 4
    ensures difference == (Value(a[..]) - Value(b[..])) % WORD
  {
    var nb: seq<Limb> := [0, 0, 0, 0];
    for i := 0 to 4
      invariant Four(nb) && forall k :: 0 <= k < i ==> nb[k] == Not64(b[k])
    {
      nb := nb[i := Not64(b[i])];
    }
    assert Value(nb) == WORD - 1 - Value(b[..]);
    difference := Sum256(a[..], nb, 1);
    AddWord(Value(a[..]) - Value(b[..]));
  }

  lemma AddWord(n: int)
    ensures (n + WORD) % WORD == n % WORD
  {
    QuotientUnique(n + WORD, WORD, n / WORD + 1, n % WORD);
  }

  // ----- comparison -------------------------------------------------------------------------------------------

  /** The top limb that differs decides. */
  method Less(a: seq<Limb>, b: seq<Limb>) returns (less: bool)
    requires Four(a) && Four(b)
    ensures less <==> Value(a) < Value(b)
  {
    var i := 3;
    while i >= 0
      invariant -1 <= i <= 3 && forall k :: i < k < 4 ==> a[k] == b[k]
    {
      if a[i] != b[i] { return a[i] < b[i]; }
      i := i - 1;
    }
    less := false;
  }

  /** Flipping the sign bits turns the signed order into the unsigned one. */
  method SignedLess(a: seq<Limb>, b: seq<Limb>) returns (less: bool)
    requires Four(a) && Four(b)
    ensures less <==> Signed(a) < Signed(b)
  {
    var x, y := a[3 := FlipTop(a[3])], b[3 := FlipTop(b[3])];
    less := Less(x, y);
  }

  /** Exclusive or with the top bit. */
  function FlipTop(x: Limb): Limb { if x >= B / 2 then x - B / 2 else x + B / 2 }

  // ----- bytes --------------------------------------------------------------------------------------------------

  /** Byte `i` counted from the most significant; zero past the end. */
  method ByteAt(index: seq<Limb>, a: seq<Limb>) returns (v: nat)
    requires Four(index) && Four(a)
    ensures v == if Value(index) < 32 then (Value(a) / Pow2(8 * (31 - Value(index)))) % 256 else 0
  {
    SmallValue(index, 32);
    var k := Small(index, 32);
    if k >= 32 { return 0; }
    v := And(Shr64(a[(31 - k) / 8], 8 * ((31 - k) % 8)), 0xff);
    ByteOfLimb(a, 31 - k);
  }

  lemma ByteOfLimb(a: seq<Limb>, j: nat)
    requires Four(a) && j < 32
    ensures And(Shr64(a[j / 8], 8 * (j % 8)), 0xff) == (Value(a) / Pow2(8 * j)) % 256
  {
    ByteOfLimbAt(a, j / 8, j % 8);
    assert 64 * (j / 8) + 8 * (j % 8) == 8 * j;
  }

  lemma ByteOfLimbAt(a: seq<Limb>, q: nat, t: nat)
    requires Four(a) && q < 4 && t < 8
    ensures And(Shr64(a[q], 8 * t), 0xff) == (Value(a) / Pow2(64 * q + 8 * t)) % 256
  {
    DivBound(Value(a), Pow2(64 * q));
    DivBound(a[q], Pow2(8 * t));
    var y: nat, p := Value(a) / Pow2(64 * q), Pow2(8 * t);
    assert Value(a) / Pow2(64 * q + 8 * t) == y / p by { ShrCompose(Value(a), y, y / p, q, 8 * t); }
    var high := y / B;
    assert y == a[q] + high * B by { LimbOf(a, q); }
    assert ((a[q] + high * B) / p) % 256 == (a[q] / p) % 256 by { HighBytes(a[q], high, t); }
    assert And(Shr64(a[q], 8 * t), 0xff) == (a[q] / p) % 256 by { LowByte(a[q] / p); }
  }

  lemma LowByte(x: nat)
    ensures And(x, 0xff) == x % 256
  {
    var n := 8;
    Pow2Byte(n);
    AndMask(x, n);
  }

  lemma LimbOf(a: seq<Limb>, q: nat)
    requires Four(a) && q < 4
    ensures Value(a) / Pow2(64 * q) == a[q] + (Value(a) / Pow2(64 * q) / B) * B
  {
    LimbsDown(a, q, 0);
    var y: seq<Limb> := [Down(a, q, 0, 0), Down(a, q, 1, 0), Down(a, q, 2, 0), Down(a, q, 3, 0)];
    QuotientUnique(Value(y), B, y[1] + y[2] * B + y[3] * B2, y[0]);
  }

  /** Limbs above do not reach into the byte. */
  lemma HighBytes(x: Limb, high: nat, t: nat)
    requires t < 8
    ensures ((x + high * B) / Pow2(8 * t)) % 256 == (x / Pow2(8 * t)) % 256
  {
    Pow2Add(8 * t, 64 - 8 * t);
    Pow2Limb(8 * t + (64 - 8 * t));
    var n := 8;
    Pow2Add(n, 56 - 8 * t);
    Pow2Byte(n);
    AboveByte(x, high, Pow2(8 * t), Pow2(64 - 8 * t), Pow2(56 - 8 * t));
  }

  lemma AboveByte(x: nat, high: nat, p: nat, r: nat, m: nat)
    requires p >= 1 && p * r == B && r == 256 * m
    ensures ((x + high * B) / p) % 256 == (x / p) % 256
  {
    var h := high * m;
    assert high * B == p * (256 * h) by {
      assert high * (p * r) == p * (high * r);
      assert high * (256 * m) == 256 * h;
    }
    assert x + high * B == p * (x / p + 256 * h) + x % p by {
      assert p * (x / p + 256 * h) == p * (x / p) + p * (256 * h);
    }
    QuotientUnique(x + high * B, p, x / p + 256 * h, x % p);
    QuotientUnique(x / p + 256 * h, 256, (x / p) / 256 + h, (x / p) % 256);
  }

  // ----- sign extension ---------------------------------------------------------------------------------------

  /** The low `n` bits read as a signed number. */
  function LowSigned(v: nat, n: nat): int
    requires n > 0
  {
    var low := v % Pow2(n);
    if low >= Pow2(n - 1) then low - Pow2(n) else low
  }

  lemma TestBit(x: Limb, s: nat)
    requires s < 64
    ensures And(Shr64(x, s), 1) == 1 <==> x % Pow2(s + 1) >= Pow2(s)
  {
    var p := Pow2(s);
    DivBound(x, p);
    var n := 1;
    assert Pow2(n) - 1 == 1 by { assert Pow2(0) == 1; }
    AndMask(x / p, n);
    BitOf(x, p);
  }

  lemma BitOf(x: nat, p: nat)
    requires p >= 1
    ensures (x / p) % 2 == 1 <==> x % (2 * p) >= p
  {
    var h, b, r := (x / p) / 2, (x / p) % 2, x % p;
    assert x == p * (x / p) + r && x / p == 2 * h + b;
    assert p * (2 * h + b) == (2 * p) * h + p * b;
    assert b == 0 ==> p * b == 0;
    assert b == 1 ==> p * b == p;
    QuotientUnique(x, 2 * p, h, p * b + r);
  }

  lemma FillZero(x: nat, p: nat, m: nat, y: nat)
    requires p == Pow2(m)
    ensures Or(And(x, p - 1), And(0, y)) == x % p
  {
    AndMask(x, m);
    LowBound(x, p);
    OrZero(x % p);
  }

  lemma FillOnes(x: nat, p: nat, r: nat, m: nat)
    requires p == Pow2(m) && r >= 1 && p * r == B
    ensures Or(And(x, p - 1), And(B - 1, B - p)) == x % p + (B - p)
  {
    AndMask(x, m);
    TopOnes(p, r);
    OnesAnd(B - p);
    OrBelow(x % p, B - p, p, m);
  }

  lemma TopOnes(p: nat, r: nat)
    requires p >= 1 && r >= 1 && p * r == B
    ensures 0 <= B - p < B && (B - p) % p == 0
  {
    assert p * r >= p;
    assert B - p == p * (r - 1);
    MultipleMod(p, r - 1);
  }

  lemma OrBelow(low: nat, high: nat, p: nat, m: nat)
    requires p == Pow2(m) && low < p && high % p == 0
    ensures Or(low, high) == low + high
  {
    OrIsSum(high, low, m);
    OrCommutes(high, low);
  }

  lemma OnesAnd(y: nat)
    requires y < B
    ensures And(B - 1, y) == y
  {
    var n := 64;
    Pow2Limb(n);
    AndOnes(y, n);
  }

  lemma LimbSizes(m: nat)
    requires 1 <= m <= 64
    ensures Pow2(m) * Pow2(64 - m) == B && Pow2(m) <= B
  {
    Pow2Limb(m + (64 - m));
    Pow2Add(m, 64 - m);
    var p, r := Pow2(m), Pow2(64 - m);
    assert p * r >= p;
  }

  /** One limb: keep the low `m` bits, fill the others. */
  lemma FillLimb(x: Limb, m: nat, p: nat, fill: Limb)
    requires 1 <= m <= 64 && p == Pow2(m) && (fill == 0 || fill == B - 1)
    ensures 0 <= p - 1 < B
    ensures Or(And(x, p - 1), And(fill, B - p)) == x % p + (if fill == 0 then 0 else B - p) < B
  {
    LimbSizes(m);
    LowBound(x, p);
    if fill == 0 {
      FillZero(x, p, m, B - p);
    } else {
      FillOnes(x, p, Pow2(64 - m), m);
    }
  }

  /** The remainder by a power that ends inside limb `x` of weight `w`. */
  lemma LowPart(x: nat, w: nat, p: nat, r: nat, over: nat, low: nat)
    requires p >= 1 && p * r == B && w >= 1 && low < w
    ensures w * p >= 1 && (low + x * w + over * (w * B)) % (w * p) == low + (x % p) * w
  {
    var h, l, d := x / p, x % p, w * p;
    LowBound(x, p);
    TimesWeight(x, w, p, h, l);
    OverWeight(over, w, p, r);
    RemainderFits(l, w, p, low);
    AddQuotients(d, h, over * r);
    QuotientUnique(low + x * w + over * (w * B), d, h + over * r, low + l * w);
  }

  lemma RemainderFits(l: nat, w: nat, p: nat, low: nat)
    requires l < p && low < w
    ensures low + l * w < w * p
  {
    assert l * w <= (p - 1) * w;
    assert (p - 1) * w == w * p - w;
  }

  lemma AddQuotients(d: nat, a: nat, b: nat)
    ensures d * (a + b) == d * a + d * b
  {
  }

  lemma TimesWeight(x: nat, w: nat, p: nat, h: nat, l: nat)
    requires x == p * h + l
    ensures x * w == (w * p) * h + l * w
  {
    assert (p * h) * w == (w * p) * h;
  }

  lemma OverWeight(over: nat, w: nat, p: nat, r: nat)
    requires p * r == B
    ensures over * (w * B) == (w * p) * (over * r)
  {
    assert over * (w * (p * r)) == (w * p) * (over * r);
  }

  /** The four limbs after the extension: nothing or all ones above the kept bits. */
  ghost predicate Extends(x: seq<Limb>, z: seq<Limb>, q: nat, p: nat, fill: Limb) {
    && Four(x) && Four(z) && q < 4 && p >= 1 && (fill == 0 || fill == B - 1)
    && (forall i :: 0 <= i < q ==> z[i] == x[i])
    && z[q] == x[q] % p + (if fill == 0 then 0 else B - p)
    && (forall i :: q < i < 4 ==> z[i] == fill)
  }

  function Weight(q: nat): (w: nat)
    requires q < 4
    ensures w >= 1
  {
    if q == 0 then 1 else if q == 1 then B else if q == 2 then B2 else B3
  }

  function Below(x: seq<Limb>, q: nat): nat
    requires Four(x) && q < 4
  {
    if q == 0 then 0 else if q == 1 then x[0] else if q == 2 then x[0] + x[1] * B else x[0] + x[1] * B + x[2] * B2
  }

  function Over(x: seq<Limb>, q: nat): nat
    requires Four(x) && q < 4
  {
    if q == 0 then x[1] + x[2] * B + x[3] * B2 else if q == 1 then x[2] + x[3] * B else if q == 2 then x[3] else 0
  }

  lemma Parts(x: seq<Limb>, q: nat)
    requires Four(x) && q < 4
    ensures Value(x) == Below(x, q) + x[q] * Weight(q) + Over(x, q) * (Weight(q) * B)
    ensures Below(x, q) < Weight(q)
  {
  }

  lemma ExtendedParts(x: seq<Limb>, z: seq<Limb>, q: nat, p: nat, fill: Limb)
    requires Extends(x, z, q, p, fill)
    ensures Value(z) == Below(x, q) + (x[q] % p) * Weight(q) + if fill == 0 then 0 else WORD - Weight(q) * p
  {
    var l := x[q] % p;
    if q == 0 {
      assert Value(z) == z[0] + z[1] * B + z[2] * B2 + z[3] * B3;
    } else if q == 1 {
      assert Value(z) == x[0] + z[1] * B + z[2] * B2 + z[3] * B3;
    } else if q == 2 {
      assert Value(z) == x[0] + x[1] * B + z[2] * B2 + z[3] * B3;
    } else {
      assert Value(z) == x[0] + x[1] * B + x[2] * B2 + z[3] * B3;
    }
  }

  lemma WeightPow(q: nat, m: nat)
    requires q < 4
    ensures Pow2(64 * q) == Weight(q) && Pow2(64 * q + m) == Weight(q) * Pow2(m)
  {
    var n := 64;
    Pow2Word(n);
    assert Pow2(0) == 1;
    assert 64 * q == q * n;
    Pow2Add(64 * q, m);
  }

  /** The low bits of a number, limb by limb. */
  lemma LowBits(x: seq<Limb>, q: nat, m: nat)
    requires Four(x) && q < 4 && 1 <= m <= 64
    ensures Value(x) % Pow2(64 * q + m) == Below(x, q) + (x[q] % Pow2(m)) * Weight(q)
  {
    WeightPow(q, m);
    LimbSizes(m);
    Parts(x, q);
    var v, w, p := Value(x), Weight(q), Pow2(m);
    assert v % (w * p) == Below(x, q) + (x[q] % p) * w by {
      LowPart(x[q], w, p, Pow2(64 - m), Over(x, q), Below(x, q));
    }
  }

  lemma ExtendedValue(x: seq<Limb>, z: seq<Limb>, q: nat, m: nat, fill: Limb)
    requires 1 <= m <= 64 && Extends(x, z, q, Pow2(m), fill)
    ensures Value(z) == Value(x) % Pow2(64 * q + m) + if fill == 0 then 0 else WORD - Pow2(64 * q + m)
  {
    LowBits(x, q, m);
    WeightPow(q, m);
    ExtendedParts(x, z, q, Pow2(m), fill);
  }

  /** The filled bit is the sign of the low bits. */
  lemma SignBit(x: seq<Limb>, q: nat, m: nat)
    requires Four(x) && q < 4 && 1 <= m <= 64
    ensures x[q] % Pow2(m) >= Pow2(m - 1) <==> Value(x) % Pow2(64 * q + m) >= Pow2(64 * q + (m - 1))
  {
    LowBits(x, q, m);
    WeightPow(q, m - 1);
    Parts(x, q);
    LowBound(x[q], Pow2(m));
    TopDecides(x[q] % Pow2(m), Pow2(m - 1), Weight(q), Below(x, q));
  }

  lemma TopDecides(y: nat, h: nat, w: nat, low: nat)
    requires low < w
    ensures y >= h <==> low + y * w >= w * h
  {
    if y >= h {
      assert y * w >= h * w;
    } else {
      assert (y + 1) * w <= h * w;
      assert (y + 1) * w == y * w + w;
    }
  }

  method SignExtend(b: array<Limb>, value: array<Limb>, result: array<Limb>)
    requires b.Length == value.Length == result.Length == 4
    modifies result
    ensures old(Value(b[..])) >= 31 ==> result[..] == old(value[..])
    ensures old(Value(b[..])) < 31 ==>
      Value(result[..]) == LowSigned(old(Value(value[..])), 8 * old(Value(b[..])) + 8) % WORD
  {
    var x := value[..];
    var k := Small(b[..], 31);
    SmallValue(b[..], 31);
    var z := x;
    if k < 31 {
      z := ExtendFrom(x, 8 * k + 7);
    }
    Store(result, z);
  }

  /** Extend the sign of one bit. */
  method ExtendFrom(x: seq<Limb>, bit: nat) returns (z: seq<Limb>)
    requires Four(x) && bit < 256
    ensures Four(z) && Value(z) == LowSigned(Value(x), bit + 1) % WORD
  {
    var q, s := bit / 64, bit % 64;
    var fill: Limb := if And(Shr64(x[q], s), 1) == 1 then B - 1 else 0;
    z := FillFrom(x, q, s, fill);
    TestBit(x[q], s);
    SignExtended(x, z, q, s + 1, fill);
  }

  method FillFrom(x: seq<Limb>, q: nat, s: nat, fill: Limb) returns (z: seq<Limb>)
    requires Four(x) && q < 4 && s < 64 && (fill == 0 || fill == B - 1)
    ensures Extends(x, z, q, Pow2(s + 1), fill)
  {
    var limb := FilledLimb(x[q], s + 1, fill);
    z := x[q := limb];
    var i := q + 1;
    while i < 4
      invariant q < i <= 4 && Four(z) && z[q] == limb
      invariant forall j :: 0 <= j < q ==> z[j] == x[j]
      invariant forall j :: q < j < i ==> z[j] == fill
    {
      z := z[i := fill];
      i := i + 1;
    }
  }

  method FilledLimb(x: Limb, m: nat, fill: Limb) returns (limb: Limb)
    requires 1 <= m <= 64 && (fill == 0 || fill == B - 1)
    ensures limb == x % Pow2(m) + (if fill == 0 then 0 else B - Pow2(m))
  {
    var p := Pow2(m);
    FillLimb(x, m, p, fill);
    var keep: Limb := p - 1;
    limb := Or(And(x, keep), And(fill, Not64(keep)));
  }

  lemma SignExtended(x: seq<Limb>, z: seq<Limb>, q: nat, m: nat, fill: Limb)
    requires 1 <= m <= 64 && Extends(x, z, q, Pow2(m), fill)
    requires fill != 0 <==> x[q] % Pow2(m) >= Pow2(m - 1)
    ensures Value(z) == LowSigned(Value(x), 64 * q + m) % WORD
  {
    ExtendedValue(x, z, q, m, fill);
    SignBit(x, q, m);
    LowWrapped(Value(x), 64 * q + m, fill);
  }

  lemma LowWrapped(v: nat, n: nat, fill: Limb)
    requires 1 <= n <= 256 && (fill != 0 <==> v % Pow2(n) >= Pow2(n - 1))
    ensures v % Pow2(n) + (if fill == 0 then 0 else WORD - Pow2(n)) == LowSigned(v, n) % WORD
  {
    var p := Pow2(n);
    LowBound(v, p);
    var k := 64;
    Pow2Word(k);
    Pow2Monotone(n, 4 * k);
    var low := v % p;
    if fill == 0 {
      QuotientUnique(low, WORD, 0, low);
    } else {
      QuotientUnique(low - p, WORD, -1, low - p + WORD);
    }
  }
}
