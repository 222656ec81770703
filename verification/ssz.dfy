/** SSZ merkleization: the in-place C++ version, the Rust version and the tree they both
    compute.  The hash of two chunks is a free constructor, so an equation between roots
    holds for every hash function. */
module Ssz {
  import opened Basics

  /** Thirty-two bytes: given, or the hash of two chunks. */
  datatype Chunk = Plain(bytes: int) | Hashed(left: Chunk, right: Chunk)

  function Min(a: nat, b: nat): nat { if a <= b then a else b }

  // ----- the tree ------------------------------------------------------------------------------------

  /** Root of the full binary tree of depth `d` whose leaves are the chunks, then `zero`. */
  function Root(chunks: seq<Chunk>, d: nat, z: Chunk): Chunk
    decreases d
  {
    if d == 0 then (if chunks == [] then z else chunks[0])
    else
      var k := Min(|chunks|, Pow2(d - 1));
      Hashed(Root(chunks[..k], d - 1, z), Root(chunks[k..], d - 1, z))
  }

  function ZeroHash(d: nat, z: Chunk): Chunk {
    if d == 0 then z else Hashed(ZeroHash(d - 1, z), ZeroHash(d - 1, z))
  }

  lemma {:induction false} EmptyTree(d: nat, z: Chunk)
    ensures Root([], d, z) == ZeroHash(d, z)
    decreases d
  {
    if d > 0 {
      EmptyTree(d - 1, z);
      var none: seq<Chunk> := [];
      assert none[..0] == none && none[0..] == none;
      assert Root(none, d, z) == Hashed(Root(none, d - 1, z), Root(none, d - 1, z));
    }
  }

  /** One level up: neighbours hashed, an odd tail with the zero of this level. */
  function Pairs(level: seq<Chunk>, z: Chunk): (r: seq<Chunk>)
    ensures |r| == (|level| + 1) / 2
    decreases |level|
  {
    if level == [] then []
    else if |level| == 1 then [Hashed(level[0], z)]
    else [Hashed(level[0], level[1])] + Pairs(level[2..], z)
  }

  lemma {:induction false} PairsAppend(a: seq<Chunk>, b: seq<Chunk>, z: Chunk)
    requires |a| % 2 == 0 || b == []
    ensures Pairs(a + b, z) == Pairs(a, z) + Pairs(b, z)
    decreases |a|
  {
    if a == [] {
      assert a + b == b;
    } else if b == [] {
      assert a + b == a;
    } else {
      assert (a + b)[2..] == a[2..] + b;
      PairsAppend(a[2..], b, z);
    }
  }

  /** The pairs of the two halves of a level. */
  lemma PairsOfHalves(level: seq<Chunk>, quarter: nat, k: nat, j: nat, z: Chunk)
    requires quarter > 0 && k == Min(|level|, 2 * quarter) && j == Min(|Pairs(level, z)|, quarter)
    ensures Pairs(level, z)[..j] == Pairs(level[..k], z) && Pairs(level, z)[j..] == Pairs(level[k..], z)
  {
    var a, b := level[..k], level[k..];
    assert level == a + b;
    PairsAppend(a, b, z);
    assert |Pairs(a, z)| == j;
  }

  lemma RootSplits(chunks: seq<Chunk>, d: nat, k: nat, z: Chunk)
    requires k == Min(|chunks|, Pow2(d))
    ensures Root(chunks, d + 1, z) == Hashed(Root(chunks[..k], d, z), Root(chunks[k..], d, z))
  {
  }

  lemma PairsFit(level: seq<Chunk>, d: nat, z: Chunk)
    requires |level| <= Pow2(d + 1)
    ensures |Pairs(level, z)| <= Pow2(d)
  {
  }

  /** The tree over a level is the tree, one lower, over its pairs. */
  lemma {:induction false} OneLevel(level: seq<Chunk>, d: nat, z: Chunk)
    requires |level| <= Pow2(d + 1)
    ensures |Pairs(level, z)| <= Pow2(d)
    ensures Root(level, d + 1, z) == Root(Pairs(level, z), d, Hashed(z, z))
    decreases d
  {
    PairsFit(level, d, z);
    if d == 0 {
      SmallLevel(level, z);
    } else {
      var k, j := Min(|level|, Pow2(d)), Min(|Pairs(level, z)|, Pow2(d - 1));
      PairsOfHalves(level, Pow2(d - 1), k, j, z);
      OneLevel(level[..k], d - 1, z);
      OneLevel(level[k..], d - 1, z);
      LevelOfHalves(level, Pairs(level, z), d - 1, k, j, z, Hashed(z, z));
    }
  }

  lemma LevelOfHalves(level: seq<Chunk>, pairs: seq<Chunk>, d: nat, k: nat, j: nat, z: Chunk, zz: Chunk)
    requires k == Min(|level|, Pow2(d + 1)) && j == Min(|pairs|, Pow2(d))
    requires Root(level[..k], d + 1, z) == Root(pairs[..j], d, zz) && Root(level[k..], d + 1, z) == Root(pairs[j..], d, zz)
    ensures Root(level, d + 2, z) == Root(pairs, d + 1, zz)
  {
    RootSplits(level, d + 1, k, z);
    RootSplits(pairs, d, j, zz);
  }

  lemma SmallLevel(level: seq<Chunk>, z: Chunk)
    requires |level| <= 2
    ensures Root(level, 1, z) == Root(Pairs(level, z), 0, Hashed(z, z))
  {
    assert Pow2(0) == 1;
    if |level| == 2 {
      assert level[..1] == [level[0]] && level[1..] == [level[1]];
      assert level[2..] == [];
    } else if |level| == 1 {
      assert level[..1] == level && level[1..] == [];
    } else {
      assert level[..0] == [] && level[0..] == [];
    }
  }

  // ----- proofs of inclusion -------------------------------------------------------------------------

  function ChunkAt(chunks: seq<Chunk>, i: nat, z: Chunk): Chunk {
    if i < |chunks| then chunks[i] else z
  }

  /** The check of the consensus specifications: from the leaf up, the sibling goes to the
      side that the index's bits say. */
  function Climb(branch: seq<Chunk>, leaf: Chunk, index: nat, z: Chunk): Chunk {
    if branch == [] then leaf
    else Climb(branch[1..], if index % 2 == 0 then Hashed(leaf, branch[0]) else Hashed(branch[0], leaf), index / 2, z)
  }

  lemma {:induction false} ClimbOneMore(branch: seq<Chunk>, x: Chunk, leaf: Chunk, i: nat, top: bool, z: Chunk)
    requires i < Pow2(|branch|)
    ensures var below := Climb(branch, leaf, i, z);
            Climb(branch + [x], leaf, if top then Pow2(|branch|) + i else i, z) ==
            if top then Hashed(x, below) else Hashed(below, x)
    decreases |branch|
  {
    if branch == [] {
      assert ([] + [x])[1..] == [];
    } else {
      var next := if i % 2 == 0 then Hashed(leaf, branch[0]) else Hashed(branch[0], leaf);
      assert (branch + [x])[1..] == branch[1..] + [x];
      ClimbOneMore(branch[1..], x, next, i / 2, top, z);
      assert (Pow2(|branch|) + i) / 2 == Pow2(|branch| - 1) + i / 2 && (Pow2(|branch|) + i) % 2 == i % 2;
    }
  }

  /** The leaves of the two halves. */
  lemma LeafInHalf(chunks: seq<Chunk>, half: nat, k: nat, i: nat, z: Chunk)
    requires k == Min(|chunks|, half)
    ensures i < half ==> ChunkAt(chunks[..k], i, z) == ChunkAt(chunks, i, z)
    ensures i >= half ==> ChunkAt(chunks[k..], i - half, z) == ChunkAt(chunks, i, z)
  {
  }

  /** Every leaf, a chunk or the padding after them, has a branch that climbs to the root. */
  lemma {:induction false} MerkleBranch(chunks: seq<Chunk>, d: nat, i: nat, z: Chunk) returns (branch: seq<Chunk>)
    requires |chunks| <= Pow2(d) && i < Pow2(d)
    ensures |branch| == d && Climb(branch, ChunkAt(chunks, i, z), i, z) == Root(chunks, d, z)
    decreases d, 1
  {
    if d == 0 { return []; }
    var half := Pow2(d - 1);
    var k := Min(|chunks|, half);
    RootSplits(chunks, d - 1, k, z);
    LeafInHalf(chunks, half, k, i, z);
    branch := JoinHalves(chunks[..k], chunks[k..], d - 1, i, z, ChunkAt(chunks, i, z));
  }

  lemma {:induction false} JoinHalves(a: seq<Chunk>, b: seq<Chunk>, d: nat, i: nat, z: Chunk, leaf: Chunk) returns (branch: seq<Chunk>)
    requires |a| <= Pow2(d) && |b| <= Pow2(d) && i < 2 * Pow2(d)
    requires leaf == if i < Pow2(d) then ChunkAt(a, i, z) else ChunkAt(b, i - Pow2(d), z)
    ensures |branch| == d + 1 && Climb(branch, leaf, i, z) == Hashed(Root(a, d, z), Root(b, d, z))
    decreases d + 1, 0
  {
    var ra, rb := Root(a, d, z), Root(b, d, z);
    if i < Pow2(d) {
      branch := MerkleBranch(a, d, i, z);
      ClimbOneMore(branch, rb, leaf, i, false, z);
      branch := branch + [rb];
    } else {
      branch := MerkleBranch(b, d, i - Pow2(d), z);
      ClimbOneMore(branch, ra, leaf, i - Pow2(d), true, z);
      branch := branch + [ra];
    }
  }

  // ----- depth -----------------------------------------------------------------------------------------

  /** The least depth whose tree has room for `n` leaves. */
  ghost predicate IsDepth(n: nat, d: nat) {
    n <= Pow2(d) && (d > 0 ==> Pow2(d - 1) < n)
  }

  lemma DepthUnique(n: nat, d: nat, e: nat)
    requires IsDepth(n, d) && IsDepth(n, e)
    ensures d == e
  {
    if d < e { Pow2Monotone(d, e - 1); }
    if e < d { Pow2Monotone(e, d - 1); }
  }

  method DepthFor(n: nat) returns (d: nat)
    requires n < U64
    ensures IsDepth(n, d) && d <= 64
  {
    d := 0;
    var p := 1;
    while d < 64 && p < n
      invariant d <= 64 && p == Pow2(d) && (d > 0 ==> Pow2(d - 1) < n)
    {
      d, p := d + 1, 2 * p;
    }
    if d == 64 { Pow2Limb(d); }
  }

  // ----- the C++ version, in place -----------------------------------------------------------------------

  lemma {:induction false} PairsAt(level: seq<Chunk>, z: Chunk, i: nat)
    requires 2 * i < |level|
    ensures Pairs(level, z)[i] == Hashed(level[2 * i], if 2 * i + 1 < |level| then level[2 * i + 1] else z)
    decreases i
  {
    if i > 0 {
      PairsAt(level[2..], z, i - 1);
    }
  }

  /** One level, overwriting the front of the array while reading ahead of it. */
  method HashLevel(level: array<Chunk>, n: nat, z: Chunk) returns (half: nat)
    requires n <= level.Length
    modifies level
    ensures half == (n + 1) / 2 <= level.Length && level[..half] == Pairs(old(level[..n]), z)
  {
    half := (n + 1) / 2;
    ghost var before := level[..n];
    for i := 0 to half
      invariant forall k :: 0 <= k < i ==> level[k] == Pairs(before, z)[k]
      invariant forall k :: 2 * i <= k < n ==> level[k] == before[k]
    {
      PairsAt(before, z, i);
      var right := if 2 * i + 1 < n then level[2 * i + 1] else z;
      level[i] := Hashed(level[2 * i], right);
    }
  }

  /** Replacing a level by its pairs keeps the root of the whole tree. */
  lemma LevelUp(level: seq<Chunk>, k: nat, e: nat, z: Chunk)
    requires |level| <= Pow2(k + 1)
    ensures |Pairs(level, ZeroHash(e, z))| <= Pow2(k)
    ensures Root(Pairs(level, ZeroHash(e, z)), k, ZeroHash(e + 1, z)) == Root(level, k + 1, ZeroHash(e, z))
  {
    OneLevel(level, k, ZeroHash(e, z));
  }

  /** One round of the outer loop. */
  method NextLevel(level: array<Chunk>, n: nat, k: nat, ghost e: nat, zero: Chunk, z: Chunk, ghost root: Chunk) returns (half: nat)
    requires LevelRoot(level[..], n, k + 1, ZeroHash(e, z)) == Some(root) && zero == ZeroHash(e, z)
    modifies level
    ensures LevelRoot(level[..], half, k, ZeroHash(e + 1, z)) == Some(root)
  {
    assert level[..][..n] == level[..n];
    LevelUp(level[..n], k, e, z);
    half := HashLevel(level, n, zero);
    assert level[..][..half] == level[..half];
  }

  method HashLevels(level: array<Chunk>, depth: nat, z: Chunk) returns (root: Chunk)
    requires 1 <= level.Length <= Pow2(depth)
    modifies level
    ensures root == Root(old(level[..]), depth, z)
  {
    ghost var r := Root(level[..], depth, z);
    var n: nat := level.Length;
    var zero := z;
    assert level[..n] == level[..];
    var e := 0;
    while e < depth
      invariant e <= depth && LevelRoot(level[..], n, depth - e, ZeroHash(e, z)) == Some(r) && zero == ZeroHash(e, z)
    {
      n := NextLevel(level, n, depth - e - 1, e, zero, z, r);
      zero := Hashed(zero, zero);
      e := e + 1;
    }
    LastLevel(level[..n], ZeroHash(e, z));
    root := level[0];
  }

  /** The root the first `n` entries stand for. */
  ghost function LevelRoot(level: seq<Chunk>, n: nat, k: nat, z: Chunk): Option<Chunk> {
    if 1 <= n <= |level| && n <= Pow2(k) then Some(Root(level[..n], k, z)) else None
  }

  lemma LastLevel(level: seq<Chunk>, z: Chunk)
    requires |level| == 1
    ensures |level| <= Pow2(0) && Root(level, 0, z) == level[0]
  {
  }

  /** Level by level in one array: the root of the zero-padded tree. */
  method Merkleize(chunks: seq<Chunk>, limit: nat, z: Chunk) returns (ok: bool, root: Chunk, ghost d: nat)
    requires limit < U64
    ensures ok <==> |chunks| <= limit
    ensures IsDepth(limit, d)
    ensures ok ==> root == Root(chunks, d, z)
  {
    var depth := DepthFor(limit);
    d := depth;
    if |chunks| > limit { return false, z, d; }
    ok := true;
    if chunks == [] {
      EmptyTree(depth, z);
      root := ZeroHash(depth, z);
      return;
    }
    var level := new Chunk[|chunks|](i requires 0 <= i < |chunks| => chunks[i]);
    assert level[..] == chunks;
    root := HashLevels(level, depth, z);
  }

  // ----- the Rust version -----------------------------------------------------------------------------------

  /** Neighbours of an even level. */
  function EvenPairs(level: seq<Chunk>): seq<Chunk>
    requires |level| % 2 == 0
    decreases |level|
  {
    if level == [] then [] else [Hashed(level[0], level[1])] + EvenPairs(level[2..])
  }

  lemma {:induction false} PushedZero(level: seq<Chunk>, z: Chunk)
    ensures EvenPairs(if |level| % 2 == 1 then level + [z] else level) == Pairs(level, z)
    decreases |level|
  {
    if |level| == 1 {
      assert (level + [z])[2..] == [];
    } else if |level| > 1 {
      PushedZero(level[2..], z);
      assert |level| % 2 == 1 ==> (level + [z])[2..] == level[2..] + [z];
    }
  }

  /** One level of the Rust loop. */
  method NextVec(level: seq<Chunk>, k: nat, ghost e: nat, zero: Chunk, z: Chunk) returns (up: seq<Chunk>)
    requires level != [] && |level| <= Pow2(k + 1) && zero == ZeroHash(e, z)
    ensures up != [] && |up| <= Pow2(k) && Root(up, k, ZeroHash(e + 1, z)) == Root(level, k + 1, ZeroHash(e, z))
  {
    LevelUp(level, k, e, z);
    PushedZero(level, ZeroHash(e, z));
    up := EvenPairs(if |level| % 2 == 1 then level + [zero] else level);
  }

  method VecLevels(chunks: seq<Chunk>, depth: nat, z: Chunk) returns (root: Chunk)
    requires |chunks| <= Pow2(depth)
    ensures root == Root(chunks, depth, z)
  {
    var level := chunks;
    var e := 0;
    var zero := z;
    ghost var r := Root(chunks, depth, z);
    while e < depth
      invariant e <= depth && |level| <= Pow2(depth - e) && zero == ZeroHash(e, z)
      invariant level == [] ==> chunks == [] && e == 0
      invariant Root(level, depth - e, ZeroHash(e, z)) == r
    {
      if level == [] {
        EmptyTree(depth, z);
        root := ZeroHash(depth, z);
        return;
      }
      level := NextVec(level, depth - e - 1, e, zero, z);
      zero := Hashed(zero, zero);
      e := e + 1;
    }
    if level == [] {
      root := z;
    } else {
      LastLevel(level, ZeroHash(e, z));
      root := level[0];
    }
  }

  /** A new vector per level, an odd one padded first; it also takes one chunk for limit 0. */
  method MerkleizeVec(chunks: seq<Chunk>, limit: nat, z: Chunk) returns (ok: bool, root: Chunk)
    requires limit <= U64 / 2
    ensures ok <==> |chunks| <= limit || (limit == 0 && |chunks| == 1)
    ensures ok ==> forall d :: IsDepth(limit, d) ==> |chunks| <= Pow2(d) && root == Root(chunks, d, z)
  {
    var least := if limit < 1 then 1 else limit;
    if |chunks| > least { return false, z; }
    ok := true;
    var depth := DepthFor(least);
    root := VecLevels(chunks, depth, z);
    forall d | IsDepth(limit, d) ensures d == depth {
      if limit >= 1 { DepthUnique(limit, d, depth); } else { DepthZero(d, depth); }
    }
  }

  lemma DepthZero(d: nat, e: nat)
    requires IsDepth(0, d) && IsDepth(1, e)
    ensures d == 0 && e == 0
  {
  }

  // ----- progressive trees ------------------------------------------------------------------------------------

  /** EIP-7916: a subtree of `width` leaves beside the progressive tree of the rest. */
  ghost function Progressive(chunks: seq<Chunk>, d: nat, z: Chunk): Chunk
    decreases |chunks|
  {
    if chunks == [] then z
    else
      var n := if |chunks| <= Pow2(d) then |chunks| else Pow2(d);
      Hashed(Root(chunks[..n], d, z), Progressive(chunks[n..], d + 2, z))
  }

  /** The first chunk of subtree `n`: 0, 1, 5, 21, ... */
  function Start(n: nat): nat {
    if n == 0 then 0 else 1 + 4 * Start(n - 1)
  }

  lemma {:induction false} StartStep(n: nat)
    ensures Start(n + 1) == Start(n) + Pow2(2 * n)
    decreases n
  {
    if n > 0 {
      StartStep(n - 1);
      assert Pow2(2 * n) == 2 * Pow2(2 * n - 1) && Pow2(2 * n - 1) == 2 * Pow2(2 * n - 2);
    }
  }

  /** Subtree `n` holds the chunks from its start to the next one's, and each is the left
      of a pair whose right is the rest; the zero chunk ends it. */
  lemma ProgressiveSubtree(chunks: seq<Chunk>, n: nat, lo: nat, hi: nat, z: Chunk)
    requires lo == Min(Start(n), |chunks|) && hi == Min(Start(n + 1), |chunks|)
    ensures lo <= hi && hi - lo <= Pow2(2 * n)
    ensures lo < |chunks| ==>
            Progressive(chunks[lo..], 2 * n, z) ==
            Hashed(Root(chunks[lo..hi], 2 * n, z), Progressive(chunks[hi..], 2 * n + 2, z))
    ensures lo == |chunks| ==> Progressive(chunks[lo..], 2 * n, z) == z
  {
    StartStep(n);
    if lo < |chunks| {
      ProgressiveSplits(chunks[lo..], 2 * n, hi - lo, z);
      Slices(chunks, lo, hi);
    }
  }

  lemma Slices(chunks: seq<Chunk>, lo: nat, hi: nat)
    requires lo <= hi <= |chunks|
    ensures chunks[lo..][..hi - lo] == chunks[lo..hi] && chunks[lo..][hi - lo..] == chunks[hi..]
  {
  }

  lemma ProgressiveSplits(rest: seq<Chunk>, d: nat, n: nat, z: Chunk)
    requires rest != [] && n == Min(|rest|, Pow2(d))
    ensures Progressive(rest, d, z) == Hashed(Root(rest[..n], d, z), Progressive(rest[n..], d + 2, z))
  {
  }

  /** Folding subtree roots from the end onto the zero chunk. */
  function FoldBack(roots: seq<Chunk>, last: Chunk, z: Chunk): Chunk {
    if roots == [] then last else Hashed(roots[0], FoldBack(roots[1..], last, z))
  }

  lemma {:induction false} FoldMore(roots: seq<Chunk>, r: Chunk, last: Chunk, z: Chunk)
    ensures FoldBack(roots + [r], last, z) == FoldBack(roots, Hashed(r, last), z)
    decreases |roots|
  {
    if roots == [] {
      assert [r][1..] == [];
      assert roots + [r] == [r];
    } else {
      assert (roots + [r])[1..] == roots[1..] + [r];
      FoldMore(roots[1..], r, last, z);
    }
  }

  /** Collect the subtrees, then fold: the recursive definition. */
  method MerkleizeProgressive(chunks: seq<Chunk>, z: Chunk) returns (root: Chunk)
    requires |chunks| < U64 / 16
    ensures root == Progressive(chunks, 0, z)
  {
    var subtrees: seq<Chunk> := [];
    var rest := chunks;
    var width := 1;
    ghost var d := 0;
    while rest != []
      invariant width == Pow2(d) && |rest| <= |chunks| && (d > 0 && rest != [] ==> 4 * (|chunks| - |rest|) >= width)
      invariant FoldBack(subtrees, Progressive(rest, d, z), z) == Progressive(chunks, 0, z)
      decreases |rest|
    {
      var take := if width <= |rest| then width else |rest|;
      ghost var e;
      var ok, r;
      ok, r, e := Merkleize(rest[..take], width, z);
      DepthUnique(width, d, e) by { PowIsDepth(d); }
      FoldMore(subtrees, r, Progressive(rest[take..], d + 2, z), z);
      subtrees := subtrees + [r];
      rest := rest[take..];
      width := width * 4;
      d := d + 2;
    }
    root := z;
    var i := |subtrees|;
    assert subtrees[..i] == subtrees;
    while i > 0
      invariant 0 <= i <= |subtrees|
      invariant FoldBack(subtrees[..i], root, z) == FoldBack(subtrees, z, z)
    {
      i := i - 1;
      assert subtrees[..i + 1] == subtrees[..i] + [subtrees[i]];
      FoldMore(subtrees[..i], subtrees[i], root, z);
      root := Hashed(subtrees[i], root);
    }
    assert subtrees[..0] == [];
  }

  lemma PowIsDepth(d: nat)
    ensures IsDepth(Pow2(d), d)
  {
  }

  /** The Rust form: plain recursion on the chunks. */
  method ProgressiveVec(chunks: seq<Chunk>, leaves: nat, ghost d: nat, z: Chunk) returns (root: Chunk)
    requires leaves == Pow2(d) && (chunks != [] ==> leaves + 4 * |chunks| <= U64 / 2)
    ensures root == Progressive(chunks, d, z)
    decreases |chunks|
  {
    if chunks == [] { return z; }
    var n := if leaves <= |chunks| then leaves else |chunks|;
    var ok, left := MerkleizeVec(chunks[..n], leaves, z);
    PowIsDepth(d);
    assert IsDepth(leaves, d);
    var right := ProgressiveVec(chunks[n..], leaves * 4, d + 2, z);
    root := Hashed(left, right);
  }
}
