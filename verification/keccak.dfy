/** The optimised Keccak-256 sponge against the plain one, for any permutation.

    A lane is its eight bytes, least significant first, as it lies in memory; xor works
    on each byte. */
module Keccak {

  const RATE := 136
  const WORDS := 17

  type Byte = bv8
  type Lane = l: seq<Byte> | |l| == 8 witness [0, 0, 0, 0, 0, 0, 0, 0]
  type State = s: seq<Lane> | |s| == 25 witness ZeroLanes(25)
  type Permutation = State -> State

  const ZERO_LANE: Lane := [0, 0, 0, 0, 0, 0, 0, 0]

  /** The word 0x8000000000000000. */
  const TOP: Lane := [0, 0, 0, 0, 0, 0, 0, 0x80]

  function ZeroLanes(n: nat): (z: seq<Lane>)
    ensures |z| == n && forall i :: 0 <= i < n ==> z[i] == ZERO_LANE
  {
    if n == 0 then [] else ZeroLanes(n - 1) + [ZERO_LANE]
  }

  function ZeroBytes(n: nat): (z: seq<Byte>)
    ensures |z| == n && forall i :: 0 <= i < n ==> z[i] == 0
  {
    if n == 0 then [] else ZeroBytes(n - 1) + [0]
  }

  function ByteXor(a: Byte, b: Byte): Byte { a ^ b }

  function Xor(a: Lane, b: Lane): Lane {
    seq(8, j requires 0 <= j < 8 => ByteXor(a[j], b[j]))
  }

  // ----- the plain sponge (sections 4 and 5.1 of FIPS 202, with Keccak's padding) ---------------------

  function LaneAt(block: seq<Byte>, i: nat): Lane
    requires 8 * i + 8 <= |block|
  {
    block[8 * i..8 * i + 8]
  }

  function XorLane(s: State, block: seq<Byte>, i: nat): Lane
    requires |block| == RATE && i < 25
  {
    if i < WORDS then Xor(s[i], LaneAt(block, i)) else s[i]
  }

  function XorBlock(s: State, block: seq<Byte>): State
    requires |block| == RATE
  {
    seq(25, i requires 0 <= i < 25 => XorLane(s, block, i))
  }

  /** Xor a block, permute, go on. */
  function Absorb(s: State, p: seq<Byte>, perm: Permutation): State
    requires |p| % RATE == 0
    decreases |p|
  {
    if |p| == 0 then s else Absorb(perm(XorBlock(s, p[..RATE])), p[RATE..], perm)
  }

  /** pad10*1 of the last, incomplete block: a one byte, zeros, and the top bit at the end. */
  function LastBlock(tail: seq<Byte>): (b: seq<Byte>)
    requires |tail| < RATE
    ensures |b| == RATE
  {
    var open := tail + [0x01] + ZeroBytes(RATE - 1 - |tail|);
    open[RATE - 1 := ByteXor(open[RATE - 1], 0x80)]
  }

  function Padded(m: seq<Byte>): (p: seq<Byte>)
    ensures |p| % RATE == 0
  {
    var whole := |m| - |m| % RATE;
    m[..whole] + LastBlock(m[whole..])
  }

  /** pad10*1 by position: the message, then 0x01, zeros and 0x80 up to the block's end, or
      0x81 where the two meet. */
  lemma PadShape(m: seq<Byte>)
    ensures var p := Padded(m);
            && |p| % 136 == 0 && |m| < |p| <= |m| + 136 && p[..|m|] == m
            && (|p| == |m| + 1 ==> p[|m|] == 0x81)
            && (|p| > |m| + 1 ==> p[|m|] == 0x01 && p[|p| - 1] == 0x80)
            && forall i :: |m| < i < |p| - 1 ==> p[i] == 0
  {
    var whole := |m| - |m| % RATE;
    var tail := m[whole..];
    var open := tail + [0x01] + ZeroBytes(RATE - 1 - |tail|);
    var p := Padded(m);
    assert m == m[..whole] + tail;
    assert ByteXor(0x01, 0x80) == 0x81 && ByteXor(0, 0x80) == 0x80;
    assert forall i :: 0 <= i < RATE - 1 ==> p[whole + i] == open[i];
  }

  function Digest(m: seq<Byte>, perm: Permutation): seq<Lane> {
    Absorb(ZeroLanes(25), Padded(m), perm)[..4]
  }

  lemma {:induction false} AbsorbMore(s: State, a: seq<Byte>, b: seq<Byte>, perm: Permutation)
    requires |a| % RATE == 0 && |b| == RATE
    ensures (|a| + RATE) % RATE == 0 && Absorb(s, a + b, perm) == perm(XorBlock(Absorb(s, a, perm), b))
    decreases |a|
  {
    if |a| == 0 {
      assert a + b == b && b[..RATE] == b && b[RATE..] == [];
    } else {
      assert (a + b)[..RATE] == a[..RATE] && (a + b)[RATE..] == a[RATE..] + b;
      AbsorbMore(perm(XorBlock(s, a[..RATE])), a[RATE..], b, perm);
    }
  }

  // ----- lanes --------------------------------------------------------------------------------------------

  lemma XorLaws(a: Byte, b: Byte, c: Byte)
    ensures ByteXor(0, a) == a && ByteXor(a, 0) == a
    ensures ByteXor(ByteXor(a, b), c) == ByteXor(a, ByteXor(b, c))
  {
  }

  lemma XorZero(a: Lane)
    ensures Xor(ZERO_LANE, a) == a && Xor(a, ZERO_LANE) == a
  {
    forall j | 0 <= j < 8 ensures ByteXor(0, a[j]) == a[j] && ByteXor(a[j], 0) == a[j] {
      XorLaws(a[j], 0, 0);
    }
  }

  lemma XorAssoc(a: Lane, b: Lane, c: Lane)
    ensures Xor(Xor(a, b), c) == Xor(a, Xor(b, c))
  {
    forall j | 0 <= j < 8 ensures Xor(Xor(a, b), c)[j] == Xor(a, Xor(b, c))[j] {
      XorLaws(a[j], b[j], c[j]);
    }
  }

  /** Byte `j` of the padded tail before the top bit is set. */
  function OpenByte(tail: seq<Byte>, j: nat): Byte {
    if j < |tail| then tail[j] else if j == |tail| then 0x01 else 0
  }

  lemma LastByte(tail: seq<Byte>, j: nat)
    requires |tail| < RATE && j < RATE
    ensures LastBlock(tail)[j] == if j == RATE - 1 then ByteXor(OpenByte(tail, j), 0x80) else OpenByte(tail, j)
  {
  }

  /** The bytes from `8 * k` on, the one byte, and zeros up to a full word. */
  ghost predicate IsLastWord(tail: seq<Byte>, k: nat, word: Lane) {
    && 8 * k <= |tail| < 8 * k + 8
    && forall j :: 0 <= j < 8 ==> word[j] == OpenByte(tail, 8 * k + j)
  }

  /** A lane of the last block without the top bit: a message word, the word with the one
      byte, or zero. */
  function PlainLane(tail: seq<Byte>, k: nat, word: Lane, i: nat): Lane
    requires 8 * k <= |tail|
  {
    if i < k then LaneAt(tail, i) else if i == k then word else ZERO_LANE
  }

  lemma PlainByte(tail: seq<Byte>, k: nat, word: Lane, i: nat, j: nat)
    requires IsLastWord(tail, k, word) && j < 8
    ensures PlainLane(tail, k, word, i)[j] == OpenByte(tail, 8 * i + j)
  {
    if i > k {
      assert 8 * i + j > |tail|;
    }
  }

  /** The lanes of the last block; the terminating bit is the top bit of lane 16. */
  lemma LastLane(tail: seq<Byte>, k: nat, word: Lane, i: nat)
    requires |tail| < RATE && i < WORDS && IsLastWord(tail, k, word)
    ensures LaneAt(LastBlock(tail), i) ==
            if i == WORDS - 1 then Xor(PlainLane(tail, k, word, i), TOP) else PlainLane(tail, k, word, i)
  {
    var plain, lane := PlainLane(tail, k, word, i), LaneAt(LastBlock(tail), i);
    forall j | 0 <= j < 8 ensures lane[j] == if i == WORDS - 1 then Xor(plain, TOP)[j] else plain[j] {
      LastByte(tail, 8 * i + j);
      PlainByte(tail, k, word, i, j);
      XorLaws(plain[j], 0, 0);
    }
  }

  // ----- the optimised sponge -------------------------------------------------------------------------------

  method Permute(state: array<Lane>, perm: Permutation)
    requires state.Length == 25
    modifies state
    ensures state[..] == perm(old(state[..]))
  {
    var s: State := perm(state[..]);
    for i := 0 to 25
      invariant forall k :: 0 <= k < i ==> state[k] == s[k]
    {
      state[i] := s[i];
    }
  }

  /** The first block is copied, not xored: the state was zero. */
  method FirstBlock(state: array<Lane>, data: seq<Byte>)
    requires state.Length == 25 && |data| == RATE
    modifies state
    ensures state[..] == XorBlock(ZeroLanes(25), data)
  {
    for i := 0 to 25
      invariant forall k :: 0 <= k < i ==> state[k] == if k < WORDS then LaneAt(data, k) else ZERO_LANE
    {
      state[i] := if i < WORDS then LaneAt(data, i) else ZERO_LANE;
    }
    forall k | 0 <= k < 25 ensures state[k] == XorLane(ZeroLanes(25), data, k) {
      if k < WORDS { XorZero(LaneAt(data, k)); }
    }
  }

  method AbsorbBlock(state: array<Lane>, data: seq<Byte>)
    requires state.Length == 25 && |data| == RATE
    modifies state
    ensures state[..] == XorBlock(old(state[..]), data)
  {
    for i := 0 to WORDS
      invariant forall k :: 0 <= k < i ==> state[k] == Xor(old(state[k]), LaneAt(data, k))
      invariant forall k :: i <= k < 25 ==> state[k] == old(state[k])
    {
      state[i] := Xor(state[i], LaneAt(data, i));
    }
  }

  /** The full words of the last block. */
  method AbsorbWords(state: array<Lane>, tail: seq<Byte>) returns (k: nat)
    requires state.Length == 25 && |tail| < RATE
    modifies state
    ensures 8 * k <= |tail| < 8 * k + 8
    ensures forall j :: 0 <= j < k ==> state[j] == Xor(old(state[j]), LaneAt(tail, j))
    ensures forall j :: k <= j < 25 ==> state[j] == old(state[j])
  {
    k := 0;
    while |tail| - 8 * k >= 8
      invariant 8 * k <= |tail|
      invariant forall j :: 0 <= j < k ==> state[j] == Xor(old(state[j]), LaneAt(tail, j))
      invariant forall j :: k <= j < 25 ==> state[j] == old(state[j])
    {
      state[k] := Xor(state[k], LaneAt(tail, k));
      k := k + 1;
    }
  }

  /** The bytes that are left, with the one byte behind them. */
  method LastWord(tail: seq<Byte>, k: nat) returns (word: Lane)
    requires 8 * k <= |tail| < 8 * k + 8
    ensures IsLastWord(tail, k, word)
  {
    var rem := |tail| - 8 * k;
    word := ZERO_LANE;
    for j := 0 to rem
      invariant forall i :: 0 <= i < j ==> word[i] == tail[8 * k + i]
      invariant forall i :: j <= i < 8 ==> word[i] == 0
    {
      word := word[j := tail[8 * k + j]];
    }
    word := word[rem := 0x01];
  }

  /** The last block: full words, the partial word with the one byte behind it, and the
      top bit, xored in separately. */
  method AbsorbTail(state: array<Lane>, tail: seq<Byte>)
    requires state.Length == 25 && |tail| < RATE
    modifies state
    ensures state[..] == XorBlock(old(state[..]), LastBlock(tail))
  {
    ghost var s: State := state[..];
    var k := AbsorbWords(state, tail);
    var word := LastWord(tail, k);
    state[k] := Xor(state[k], word);
    state[WORDS - 1] := Xor(state[WORDS - 1], TOP);
    forall i | 0 <= i < 25 ensures state[i] == XorLane(s, LastBlock(tail), i) {
      TailLane(s, tail, k, word, i, state[i]);
    }
  }

  lemma TailLane(s: State, tail: seq<Byte>, k: nat, word: Lane, i: nat, x: Lane)
    requires |tail| < RATE && i < 25 && IsLastWord(tail, k, word)
    requires var y := if i < k then Xor(s[i], LaneAt(tail, i)) else if i == k then Xor(s[i], word) else s[i];
             x == if i == WORDS - 1 then Xor(y, TOP) else y
    ensures x == XorLane(s, LastBlock(tail), i)
  {
    if i < WORDS {
      LastLane(tail, k, word, i);
      XorZero(s[i]);
      XorAssoc(s[i], PlainLane(tail, k, word, i), TOP);
    }
  }

  /** One more whole block. */
  method NextBlock(state: array<Lane>, m: seq<Byte>, pos: nat, perm: Permutation)
    requires state.Length == 25 && pos + RATE <= |m| && pos % RATE == 0
    requires state[..] == Absorb(ZeroLanes(25), m[..pos], perm)
    modifies state
    ensures (pos + RATE) % RATE == 0 && state[..] == Absorb(ZeroLanes(25), m[..pos + RATE], perm)
  {
    AbsorbMore(ZeroLanes(25), m[..pos], m[pos..pos + RATE], perm);
    assert m[..pos] + m[pos..pos + RATE] == m[..pos + RATE];
    AbsorbBlock(state, m[pos..pos + RATE]);
    Permute(state, perm);
  }

  method Clear(state: array<Lane>)
    requires state.Length == 25
    modifies state
    ensures state[..] == ZeroLanes(25)
  {
    for i := 0 to 25
      invariant forall k :: 0 <= k < i ==> state[k] == ZERO_LANE
    {
      state[i] := ZERO_LANE;
    }
  }

  /** The whole blocks: the first by copy, the others by xor. */
  method AbsorbWhole(state: array<Lane>, m: seq<Byte>, perm: Permutation) returns (pos: nat)
    requires state.Length == 25
    modifies state
    ensures pos <= |m| < pos + RATE && pos % RATE == 0
    ensures state[..] == Absorb(ZeroLanes(25), m[..pos], perm)
  {
    pos := 0;
    if |m| >= RATE {
      FirstBlock(state, m[..RATE]);
      AbsorbMore(ZeroLanes(25), [], m[..RATE], perm);
      assert [] + m[..RATE] == m[..RATE];
      Permute(state, perm);
      pos := RATE;
    } else {
      Clear(state);
      assert m[..0] == [];
    }
    while |m| - pos >= RATE
      invariant 0 <= pos <= |m| && pos % RATE == 0
      invariant state[..] == Absorb(ZeroLanes(25), m[..pos], perm)
    {
      NextBlock(state, m, pos, perm);
      pos := pos + RATE;
    }
  }

  lemma WholeBlocks(n: nat, pos: nat)
    requires pos <= n < pos + RATE && pos % RATE == 0
    ensures pos == n - n % RATE
  {
  }

  /** For every message and every permutation: the digest of the plain sponge. */
  method Compute(m: seq<Byte>, perm: Permutation) returns (out: seq<Lane>)
    ensures out == Digest(m, perm)
  {
    var state := new Lane[25];
    var pos := AbsorbWhole(state, m, perm);
    WholeBlocks(|m|, pos);
    AbsorbMore(ZeroLanes(25), m[..pos], LastBlock(m[pos..]), perm);
    AbsorbTail(state, m[pos..]);
    Permute(state, perm);
    out := state[..4];
    assert out == state[..][..4];
  }
}
