/** A leaf's key from its walked path and its packed suffix: copied on a byte boundary,
    else shifted by four bits as a 256-bit word and or-ed in. */
module PackedKeys {
  import opened Basics
  import opened Rlp
  import U256

  /** Nibble `i` of packed bytes, the high half first. */
  function NibbleAt(b: Bytes, i: nat): Nibble
    requires i < 2 * |b|
  {
    if i % 2 == 0 then b[i / 2] / 16 else b[i / 2] % 16
  }

  /** The nibbles a suffix of `n` spells; a padding nibble may follow. */
  function Suffix(b: Bytes, n: nat): (r: seq<Nibble>)
    requires n <= 2 * |b|
    ensures |r| == n
  {
    seq(n, i requires 0 <= i < n => NibbleAt(b, i))
  }

  /** Two nibbles a byte. */
  function Pack(ns: seq<Nibble>): (b: Bytes)
    requires |ns| % 2 == 0
    ensures |b| == |ns| / 2
  {
    seq(|ns| / 2, k requires 0 <= k < |ns| / 2 => PackedByte(ns[2 * k], ns[2 * k + 1]))
  }

  function PackedByte(hi: Nibble, lo: Nibble): Byte { 16 * hi + lo }

  // ----- shifting bytes by half a byte -----------------------------------------------------------

  /** The bytes moved down by a nibble, `carry` coming in at the top. */
  function Shifted(carry: Byte, b: Bytes): (r: Bytes)
    ensures |r| == |b|
  {
    seq(|b|, k requires 0 <= k < |b| => PackedByte((if k == 0 then carry else b[k - 1]) % 16, b[k] / 16))
  }

  /** As a number: a sixteenth of it, with the carry's low nibble on top. */
  lemma {:induction false} ShiftedValue(carry: Byte, b: Bytes)
    requires b != []
    ensures BeValue(Shifted(carry, b)) == BeValue(b) / 16 + (carry % 16) * (16 * Pow256(|b| - 1))
    decreases |b|
  {
    var n := |b| - 1;
    var s := Shifted(carry, b);
    if n == 0 {
      assert s == [PackedByte(carry % 16, b[0] / 16)];
      assert Pow256(0) == 1 && BeValue([]) == 0;
      assert s[..0] == [] && b[..0] == [];
    } else {
      var front := b[..n];
      ShiftedValue(carry, front);
      assert s[..n] == Shifted(carry, front);
      assert front[n - 1] == b[n - 1];
      LastNibble(front);
      ShiftStep(BeValue(s[..n]), BeValue(front), b[n - 1], b[n], carry % 16, Pow256(n - 1));
    }
  }

  lemma LastNibble(b: Bytes)
    requires b != []
    ensures BeValue(b) % 16 == b[|b| - 1] % 16
  {
  }

  /** One more byte `x` below, where `last` is the byte before it. */
  lemma ShiftStep(s: nat, v: nat, last: Byte, x: Byte, c: nat, p: nat)
    requires s == v / 16 + c * (16 * p) && v % 16 == last % 16
    ensures 256 * s + PackedByte(last % 16, x / 16) == (256 * v + x) / 16 + c * (16 * (256 * p))
  {
    assert (256 * v + x) / 16 == 16 * v + x / 16;
    assert v == 16 * (v / 16) + v % 16;
    assert c * (16 * (256 * p)) == 256 * (c * (16 * p));
  }

  /** Four bits down within 64, the low nibble of the word above coming in on top, as the
      code joins two shifted words. */
  lemma JoinedWord(above: Bytes, b: Bytes)
    requires |above| == 8 && |b| == 8
    ensures var v, w := BeValue(above), BeValue(b);
            && v < U256.B && w < U256.B
            && U256.Or(U256.Shr64(w, 4), U256.Shl64(v, 60)) == BeValue(Shifted(above[7], b))
  {
    var v, w := BeValue(above), BeValue(b);
    WordBound(above);
    WordBound(b);
    U256.JoinDown(w, v, 4);
    ShiftedValue(above[7], b);
    LastNibble(above);
    WordSizes();
  }

  /** The top word: nothing comes in. */
  lemma TopWord(b: Bytes)
    requires |b| == 8
    ensures BeValue(b) < U256.B && U256.Shr64(BeValue(b), 4) == BeValue(Shifted(0, b))
  {
    WordBound(b);
    ShrFour(BeValue(b));
    ShiftedValue(0, b);
  }

  lemma ShrFour(w: U256.Limb)
    ensures U256.Shr64(w, 4) == w / 16
  {
    var k := 4;
    FourBits(k);
    U256.DivBound(w, 16);
  }

  lemma FourBits(k: nat)
    requires k == 4
    ensures Pow2(k) == 16
  {
  }

  lemma WordBound(b: Bytes)
    requires |b| == 8
    ensures BeValue(b) < U256.B
  {
    BytesOfValue(b);
    WordSizes();
  }

  lemma WordSizes()
    ensures Pow256(8) == U256.B && 16 * Pow256(7) == Pow2(60) && Pow2(4) == 16
  {
    var n, k := 60, 4;
    Pow256Eight();
    Pow2Limb(n + k);
    Pow2Add(n, k);
  }

  lemma Pow256Eight()
    ensures Pow256(7) == 0x100_0000_0000_0000 && Pow256(8) == 0x1_0000_0000_0000_0000
  {
    assert Pow256(1) == 256 * Pow256(0) && Pow256(2) == 256 * Pow256(1) && Pow256(3) == 256 * Pow256(2);
    assert Pow256(4) == 256 * Pow256(3) && Pow256(5) == 256 * Pow256(4) && Pow256(6) == 256 * Pow256(5);
    assert Pow256(7) == 256 * Pow256(6) && Pow256(8) == 256 * Pow256(7);
  }

  lemma OrNibbles(hi: Nibble, lo: Nibble)
    ensures U256.Or(16 * hi, lo) == PackedByte(hi, lo)
  {
    var k := 4;
    FourBits(k);
    U256.OrIsSum(16 * hi, lo, k);
  }

  /** Two bytes that share no nibble, or-ed to `p`. */
  predicate Apart(w: Byte, x: Byte, p: Byte) {
    (x == 0 && p == w) || (w == 0 && p == x) || (w % 16 == 0 && x < 16 && p == w + x)
  }

  lemma OrApart(w: Byte, x: Byte, p: Byte)
    requires Apart(w, x, p)
    ensures U256.Or(w, x) == p
  {
    if x == 0 {
      U256.OrZero(w);
    } else if w == 0 {
      U256.OrCommutes(w, x);
      U256.OrZero(x);
    } else {
      OrNibbles(w / 16, x);
    }
  }

  // ----- the code -------------------------------------------------------------------------------

  /** The four words of the shift, loaded and stored as big-endian numbers. */
  method ShiftWords(t: Bytes) returns (x: Bytes)
    requires |t| == 32
    ensures x == Shifted(0, t)
  {
    var a, b, c, d := t[..8], t[8..16], t[16..24], t[24..];
    TopWord(a);
    JoinedWord(a, b);
    JoinedWord(b, c);
    JoinedWord(c, d);
    var w0, w1, w2, w3 := BeValue(a), BeValue(b), BeValue(c), BeValue(d);
    var x0 := StoreWord(U256.Shr64(w0, 4), Shifted(0, a));
    var x1 := StoreWord(U256.Or(U256.Shr64(w1, 4), U256.Shl64(w0, 60)), Shifted(a[7], b));
    var x2 := StoreWord(U256.Or(U256.Shr64(w2, 4), U256.Shl64(w1, 60)), Shifted(b[7], c));
    var x3 := StoreWord(U256.Or(U256.Shr64(w3, 4), U256.Shl64(w2, 60)), Shifted(c[7], d));
    x := x0 + x1 + x2 + x3;
    ShiftedInFour(t, a, b, c, d);
  }

  /** A word's eight bytes in memory, the swap undone. */
  method StoreWord(w: nat, ghost b: Bytes) returns (r: Bytes)
    requires |b| == 8 && w == BeValue(b)
    ensures r == b
  {
    var n := 8;
    BytesOfValue(b);
    r := BeBytes(w, n);
  }

  lemma ShiftedInFour(t: Bytes, a: Bytes, b: Bytes, c: Bytes, d: Bytes)
    requires |t| == 32 && a == t[..8] && b == t[8..16] && c == t[16..24] && d == t[24..]
    ensures Shifted(0, t) == Shifted(0, a) + Shifted(a[7], b) + Shifted(b[7], c) + Shifted(c[7], d)
  {
  }

  /** What the walk leaves in byte `k`. */
  function WalkByte(walked: seq<Nibble>, k: nat): Byte {
    PackedByte(if 2 * k < |walked| then walked[2 * k] else 0, if 2 * k + 1 < |walked| then walked[2 * k + 1] else 0)
  }

  method OrByte(w: Byte, x: Byte, ghost p: Byte) returns (r: Byte)
    requires Apart(w, x, p)
    ensures r == p
  {
    OrApart(w, x, p);
    r := U256.Or(w, x);
  }

  /** The walk is pushed a nibble at a time, so it packs in a loop. */
  method PackWalk(walked: seq<Nibble>) returns (out: Bytes)
    requires |walked| <= 64
    ensures |out| == 32 && forall k :: 0 <= k < 32 ==> out[k] == WalkByte(walked, k)
  {
    out := seq(32, _ => 0);
    for i := 0 to |walked|
      invariant |out| == 32 && forall k :: 0 <= k < 32 ==> out[k] == WalkByte(walked[..i], k)
    {
      var nib: int := walked[i];
      if i % 2 == 1 {
        var b := OrByte(out[i / 2], nib, PackedByte(walked[i - 1], nib));
        out := out[i / 2 := b];
      } else {
        out := out[i / 2 := (16 * nib) % 256];
      }
      WalkGrows(walked, i);
    }
    assert walked[..|walked|] == walked;
  }

  lemma WalkGrows(walked: seq<Nibble>, i: nat)
    requires i < |walked|
    ensures forall k {:trigger WalkByte(walked[..i + 1], k)} :: 0 <= k && k != i / 2 ==>
              WalkByte(walked[..i + 1], k) == WalkByte(walked[..i], k)
    ensures WalkByte(walked[..i + 1], i / 2) ==
            if i % 2 == 1 then PackedByte(walked[i - 1], walked[i]) else PackedByte(walked[i], 0)
  {
  }

  /** Bitwise or, word by word or byte by byte. */
  method OrBytes(a: Bytes, b: Bytes, ghost c: Bytes) returns (r: Bytes)
    requires |a| == |b| == |c| && forall k :: 0 <= k < |a| ==> Apart(a[k], b[k], c[k])
    ensures r == c
  {
    r := [];
    for i := 0 to |a|
      invariant |r| == i && r == c[..i]
    {
      var x := OrByte(a[i], b[i], c[i]);
      r := r + [x];
    }
  }

  /** The key a leaf stands at: its walked path and its suffix, 64 nibbles together. */
  method PackKeyHash(walked: seq<Nibble>, suffix: Bytes, n: nat) returns (ok: bool, key: Bytes)
    requires |suffix| == (n + 1) / 2
    ensures ok <==> |walked| + n == 64
    ensures ok ==> key == Pack(walked + Suffix(suffix, n))
  {
    if |walked| + n != 64 { return false, []; }
    var out := PackWalk(walked);
    var d := |walked|;
    ok := true;
    if d % 2 == 0 {
      key := out[..d / 2] + suffix;
      EvenKey(walked, suffix, n, out, key);
    } else {
      key := OddKey(walked, suffix, n, out);
    }
  }

  /** The suffix starts in the middle of a byte. */
  method OddKey(ghost walked: seq<Nibble>, suffix: Bytes, n: nat, out: Bytes) returns (key: Bytes)
    requires |walked| + n == 64 && |walked| % 2 == 1 && |suffix| == (n + 1) / 2
    requires |out| == 32 && forall k :: 0 <= k < 32 ==> out[k] == WalkByte(walked, k)
    ensures key == Pack(walked + Suffix(suffix, n))
  {
    var t := seq(32 - |suffix|, _ => 0) + suffix;
    var x := ShiftWords(t);
    ghost var packed := Pack(walked + Suffix(suffix, n));
    forall k | 0 <= k < 32 ensures Apart(out[k], x[k], packed[k]) {
      OddByte(walked, suffix, n, t, k);
    }
    key := OrBytes(out, x, packed);
  }

  lemma EvenKey(walked: seq<Nibble>, suffix: Bytes, n: nat, out: Bytes, key: Bytes)
    requires |walked| + n == 64 && |walked| % 2 == 0 && |suffix| == (n + 1) / 2 && |out| == 32
    requires key == out[..|walked| / 2] + suffix && forall k :: 0 <= k < 32 ==> out[k] == WalkByte(walked, k)
    ensures key == Pack(walked + Suffix(suffix, n))
  {
    var ns := walked + Suffix(suffix, n);
    forall k | 0 <= k < 32 ensures key[k] == PackedByte(ns[2 * k], ns[2 * k + 1]) {
      var j := k - |walked| / 2;
      if j >= 0 {
        assert ns[2 * k] == NibbleAt(suffix, 2 * j) && ns[2 * k + 1] == NibbleAt(suffix, 2 * j + 1);
      } else {
        assert out[k] == WalkByte(walked, k);
      }
    }
  }

  /** Below the seam the walk's byte, at the seam one nibble of each, above it two of the
      suffix; its padding nibble is shifted out. */
  lemma OddByte(walked: seq<Nibble>, suffix: Bytes, n: nat, t: Bytes, k: nat)
    requires |walked| + n == 64 && |walked| % 2 == 1 && |suffix| == (n + 1) / 2 && k < 32
    requires |t| == 32 && (forall j :: 0 <= j < |walked| / 2 ==> t[j] == 0) && t[|walked| / 2..] == suffix
    ensures Apart(WalkByte(walked, k), Shifted(0, t)[k], Pack(walked + Suffix(suffix, n))[k])
  {
    var h := |walked| / 2;
    if k < h {
      WalkPart(walked, suffix, n, t, k);
    } else if k == h {
      SeamPart(walked, suffix, n, t, k);
    } else {
      SuffixPart(walked, suffix, n, t, k, k - h, 2 * (k - h) - 1);
    }
  }

  // One element of each sequence at a time.

  lemma PackAt(ns: seq<Nibble>, k: nat)
    requires |ns| == 64 && k < 32
    ensures Pack(ns)[k] == PackedByte(ns[2 * k], ns[2 * k + 1])
  {
  }

  lemma ShiftedAt(t: Bytes, k: nat)
    requires k < |t|
    ensures Shifted(0, t)[k] == PackedByte(if k == 0 then 0 else t[k - 1] % 16, t[k] / 16)
  {
  }

  /** The two nibbles of suffix byte `j`. */
  lemma SuffixAt(b: Bytes, n: nat, j: nat)
    requires n <= 2 * |b|
    ensures 2 * j < n ==> Suffix(b, n)[2 * j] == b[j] / 16
    ensures 2 * j + 1 < n ==> Suffix(b, n)[2 * j + 1] == b[j] % 16
  {
    assert 2 * j < n ==> NibbleAt(b, 2 * j) == b[j] / 16;
    assert 2 * j + 1 < n ==> NibbleAt(b, 2 * j + 1) == b[j] % 16;
  }

  lemma WalkPart(walked: seq<Nibble>, suffix: Bytes, n: nat, t: Bytes, k: nat)
    requires |walked| + n == 64 && |suffix| == (n + 1) / 2 && 2 * k + 1 < |walked|
    requires |t| == 32 && t[k] == 0 && (k > 0 ==> t[k - 1] == 0)
    ensures Apart(WalkByte(walked, k), Shifted(0, t)[k], Pack(walked + Suffix(suffix, n))[k])
  {
    ShiftedAt(t, k);
    PackAt(walked + Suffix(suffix, n), k);
  }

  lemma SeamPart(walked: seq<Nibble>, suffix: Bytes, n: nat, t: Bytes, k: nat)
    requires |walked| + n == 64 && |walked| == 2 * k + 1 && |suffix| == (n + 1) / 2
    requires |t| == 32 && (k > 0 ==> t[k - 1] == 0) && t[k..] == suffix
    ensures Apart(WalkByte(walked, k), Shifted(0, t)[k], Pack(walked + Suffix(suffix, n))[k])
  {
    ShiftedAt(t, k);
    PackAt(walked + Suffix(suffix, n), k);
    SuffixAt(suffix, n, 0);
    assert t[k] == t[k..][0];
  }

  lemma SuffixPart(walked: seq<Nibble>, suffix: Bytes, n: nat, t: Bytes, k: nat, j: nat, i: nat)
    requires |walked| + n == 64 && n <= 2 * |suffix| && 0 < j <= k < 32 && i + 1 == 2 * j && |walked| + i == 2 * k
    requires |t| == 32 && t[k - j..] == suffix
    ensures Apart(WalkByte(walked, k), Shifted(0, t)[k], Pack(walked + Suffix(suffix, n))[k])
  {
    ShiftedTail(suffix, t, k, j);
    SuffixPair(suffix, n, j);
    TwoOfSuffix(walked, Suffix(suffix, n), k, 2 * k, i, Shifted(0, t)[k]);
  }

  lemma ShiftedTail(suffix: Bytes, t: Bytes, k: nat, j: nat)
    requires 0 < j <= k < |t| && t[k - j..] == suffix
    ensures Shifted(0, t)[k] == PackedByte(suffix[j - 1] % 16, suffix[j] / 16)
  {
    ShiftedAt(t, k);
    assert t[k - 1] == t[k - j..][j - 1] && t[k] == t[k - j..][j];
  }

  lemma SuffixPair(suffix: Bytes, n: nat, j: nat)
    requires n <= 2 * |suffix| && 0 < 2 * j < n
    ensures Suffix(suffix, n)[2 * j - 1] == suffix[j - 1] % 16 && Suffix(suffix, n)[2 * j] == suffix[j] / 16
  {
    SuffixAt(suffix, n, j - 1);
    SuffixAt(suffix, n, j);
  }

  lemma TwoOfSuffix(walked: seq<Nibble>, s: seq<Nibble>, k: nat, m: nat, i: nat, x: Byte)
    requires |walked| + |s| == 64 && m == 2 * k && m == |walked| + i && i + 1 < |s|
    requires x == PackedByte(s[i], s[i + 1])
    ensures WalkByte(walked, k) == 0 && Pack(walked + s)[k] == x
  {
    BothAfter(walked, s, m, i);
    PackAt(walked + s, k);
  }

  lemma BothAfter(a: seq<Nibble>, b: seq<Nibble>, m: nat, i: nat)
    requires m == |a| + i && i + 1 < |b|
    ensures (a + b)[m] == b[i] && (a + b)[m + 1] == b[i + 1]
  {
  }
}
