/** The reference trie builder: sort the entries, then split them recursively. */
module Mpt {
  import opened Basics
  import opened TrieTerms
  import opened Canonical
  import opened TrieReduce
  import opened TrieSoundness

  datatype Entry = Entry(key: seq<Byte>, value: Value)
  datatype PathEntry = PathEntry(path: Path, value: Value)

  // ----- nibbles of a key ------------------------------------------------------------

  function Nibbles(key: seq<Byte>): (p: Path)
    ensures |p| == 2 * |key|
  {
    if key == [] then [] else [key[0] / 16, key[0] % 16] + Nibbles(key[1..])
  }

  lemma {:induction false} NibblesAppend(key: seq<Byte>, b: Byte)
    ensures Nibbles(key + [b]) == Nibbles(key) + [b / 16, b % 16]
    decreases |key|
  {
    if key == [] {
      assert key + [b] == [b] && [b][1..] == [];
    } else {
      assert (key + [b])[1..] == key[1..] + [b];
      NibblesAppend(key[1..], b);
    }
  }

  /** Different keys have different paths. */
  lemma {:induction false} NibblesInjective(a: seq<Byte>, b: seq<Byte>)
    requires Nibbles(a) == Nibbles(b)
    ensures a == b
    decreases |a|
  {
    if a != [] {
      assert Nibbles(a)[0] == a[0] / 16 && Nibbles(a)[1] == a[0] % 16;
      assert Nibbles(b)[0] == b[0] / 16 && Nibbles(b)[1] == b[0] % 16;
      assert Nibbles(a)[2..] == Nibbles(a[1..]) && Nibbles(b)[2..] == Nibbles(b[1..]);
      NibblesInjective(a[1..], b[1..]);
      assert a == [a[0]] + a[1..] && b == [b[0]] + b[1..];
    }
  }

  method ToNibbles(key: seq<Byte>) returns (p: Path)
    ensures p == Nibbles(key) && |p| == 2 * |key|
    ensures forall i :: 0 <= i < |key| ==> p[2 * i] == key[i] / 16 && p[2 * i + 1] == key[i] % 16
  {
    p := [];
    for i := 0 to |key|
      invariant p == Nibbles(key[..i]) && |p| == 2 * i
      invariant forall k :: 0 <= k < i ==> p[2 * k] == key[k] / 16 && p[2 * k + 1] == key[k] % 16
    {
      NibblesAppend(key[..i], key[i]);
      assert key[..i] + [key[i]] == key[..i + 1];
      var b: Byte := key[i];
      p := p + [b / 16] + [b % 16];
    }
    assert key[..|key|] == key;
  }

  // ----- the order of paths -----------------------------------------------------------

  predicate Less(a: Path, b: Path) {
    b != [] && (a == [] || a[0] < b[0] || (a[0] == b[0] && Less(a[1..], b[1..])))
  }

  lemma {:induction false} LessTrans(a: Path, b: Path, c: Path)
    requires Less(a, b) && Less(b, c)
    ensures Less(a, c)
  {
    if a != [] && a[0] == b[0] == c[0] { LessTrans(a[1..], b[1..], c[1..]); }
  }

  lemma {:induction false} LessTotal(a: Path, b: Path)
    ensures Less(a, b) || a == b || Less(b, a)
    ensures !(Less(a, b) && (a == b || Less(b, a)))
    decreases |a|
  {
    if a != [] && b != [] && a[0] == b[0] {
      LessTotal(a[1..], b[1..]);
      assert a == [a[0]] + a[1..] && b == [b[0]] + b[1..];
    }
  }

  /** The order below a common prefix is the order of what follows it. */
  lemma {:induction false} LessBelow(a: Path, b: Path, n: nat)
    requires n <= |a| && n <= |b| && a[..n] == b[..n]
    ensures Less(a, b) <==> Less(a[n..], b[n..])
    decreases n
  {
    if n == 0 {
      assert a[0..] == a && b[0..] == b;
    } else {
      assert a[0] == a[..n][0] && b[0] == b[..n][0];
      assert a[1..][..n - 1] == a[..n][1..] && b[1..][..n - 1] == b[..n][1..];
      assert a[1..][n - 1..] == a[n..] && b[1..][n - 1..] == b[n..];
      LessBelow(a[1..], b[1..], n - 1);
    }
  }

  /** What the first and the last of three sorted paths share, the middle one shares. */
  lemma {:induction false} Between(a: Path, b: Path, z: Path, n: nat)
    requires n <= |a| && n <= |z| && a[..n] == z[..n]
    requires (Less(a, b) || a == b) && (Less(b, z) || b == z)
    ensures n <= |b| && b[..n] == a[..n]
    decreases n
  {
    if n > 0 {
      assert a[0] == a[..n][0] && z[0] == z[..n][0];
      assert b != [] && b[0] == a[0];
      assert a[1..][..n - 1] == a[..n][1..] && z[1..][..n - 1] == z[..n][1..];
      Between(a[1..], b[1..], z[1..], n - 1);
      assert b[..n] == [b[0]] + b[1..][..n - 1];
      assert a[..n] == [a[0]] + a[1..][..n - 1];
    }
  }

  predicate Sorted(pe: seq<PathEntry>) {
    forall i, j :: 0 <= i < j < |pe| ==> Less(pe[i].path, pe[j].path)
  }

  /** The entries agree on their first `depth` nibbles. */
  predicate Shared(pe: seq<PathEntry>, depth: nat) {
    forall i :: 0 <= i < |pe| ==> Starts(pe[i], pe[0].path, depth)
  }

  predicate Starts(e: PathEntry, p: Path, depth: nat) {
    depth <= |e.path| && depth <= |p| && e.path[..depth] == p[..depth]
  }

  /** `m` is the map of the entries, with their first `depth` nibbles dropped. */
  ghost predicate Represents(m: Entries, pe: seq<PathEntry>, depth: nat) {
    && (forall i :: 0 <= i < |pe| ==> Holds(m, pe[i], depth))
    && (forall k {:trigger Covered(pe, depth, k)} :: k in m ==> Covered(pe, depth, k))
  }

  ghost predicate Covered(pe: seq<PathEntry>, depth: nat, k: Path) {
    exists i :: 0 <= i < |pe| && Drops(pe[i], depth, k)
  }

  ghost predicate Holds(m: Entries, e: PathEntry, depth: nat) {
    depth <= |e.path| && e.path[depth..] in m && m[e.path[depth..]] == e.value
  }

  ghost predicate Drops(e: PathEntry, depth: nat, k: Path) {
    depth <= |e.path| && k == e.path[depth..]
  }

  // ----- the longest common prefix of sorted entries -----------------------------------

  /** Comparing the first and the last sorted entry finds what all of them share. */
  lemma AllShare(pe: seq<PathEntry>, common: nat)
    requires |pe| >= 2 && Sorted(pe)
    requires Starts(pe[|pe| - 1], pe[0].path, common)
    ensures Shared(pe, common)
  {
    var a, z := pe[0].path, pe[|pe| - 1].path;
    forall i | 0 <= i < |pe| ensures Starts(pe[i], a, common) {
      Between(a, pe[i].path, z, common);
    }
  }

  lemma SharedPrefix(e: PathEntry, a: Path, depth: nat, common: nat, k: Path)
    requires depth <= common && Starts(e, a, common) && Drops(e, depth, k)
    ensures a[depth..common] <= k
    ensures k == a[depth..common] + e.path[common..]
  {
    assert e.path[..common][depth..] == e.path[depth..common];
    assert a[..common][depth..] == a[depth..common];
    assert k == e.path[depth..common] + e.path[common..];
  }

  /** ... and it is the longest common prefix of the represented map. */
  lemma FirstAndLast(pe: seq<PathEntry>, m: Entries, depth: nat, common: nat)
    requires |pe| >= 2 && Shared(pe, common) && Represents(m, pe, depth) && depth <= common
    requires pe[0].path != pe[|pe| - 1].path
    requires var a, z := pe[0].path, pe[|pe| - 1].path;
             common == |a| || common == |z| || a[common] != z[common]
    ensures LongestCommonPrefix(pe[0].path[depth..common], m)
    ensures Splits(m)
  {
    var a, z := pe[0].path, pe[|pe| - 1].path;
    var p := a[depth..common];
    assert Starts(pe[0], a, common) && Starts(pe[|pe| - 1], a, common);
    forall k | k in m ensures p <= k {
      assert Covered(pe, depth, k);
      var i :| 0 <= i < |pe| && Drops(pe[i], depth, k);
      SharedPrefix(pe[i], a, depth, common, k);
    }
    assert Holds(m, pe[0], depth) && Holds(m, pe[|pe| - 1], depth);
    SharedPrefix(pe[0], a, depth, common, a[depth..]);
    SharedPrefix(pe[|pe| - 1], a, depth, common, z[depth..]);
    NoLonger(m, a[depth..], z[depth..], p);
    assert a == a[..common] + a[common..] && z == z[..common] + z[common..];
  }

  lemma NoLonger(m: Entries, a: Path, z: Path, p: Path)
    requires a in m && z in m && p <= a && p <= z
    requires |p| == |a| || |p| == |z| || a[|p|] != z[|p|]
    ensures forall c: Nibble :: !CommonPrefix(p + [c], m)
    ensures a != z ==> forall k: Path :: m.Keys != {k}
  {
    forall c: Nibble ensures !CommonPrefix(p + [c], m) {
      assert p + [c] <= a ==> |p| < |a| && a[|p|] == c;
      assert p + [c] <= z ==> |p| < |z| && z[|p|] == c;
    }
    forall k: Path | a != z ensures m.Keys != {k} {
      assert a in m.Keys && z in m.Keys;
    }
  }

  lemma RepresentsStrip(pe: seq<PathEntry>, m: Entries, depth: nat, common: nat)
    requires |pe| >= 1 && Represents(m, pe, depth) && depth <= common && Shared(pe, common)
    ensures Represents(Strip(m, pe[0].path[depth..common]), pe, common)
  {
    var a := pe[0].path;
    assert Starts(pe[0], a, common);
    var p := a[depth..common];
    var s := Strip(m, p);
    forall i | 0 <= i < |pe| ensures Holds(s, pe[i], common) {
      assert Starts(pe[i], a, common) && Holds(m, pe[i], depth);
      SharedPrefix(pe[i], a, depth, common, pe[i].path[depth..]);
    }
    forall k | k in s ensures Covered(pe, common, k) {
      assert p + k in m && Covered(pe, depth, p + k);
      var i :| 0 <= i < |pe| && Drops(pe[i], depth, p + k);
      assert Starts(pe[i], a, common);
      SharedPrefix(pe[i], a, depth, common, p + k);
      assert Drops(pe[i], common, k);
    }
  }

  /** A run of entries with nibble `c` at `depth`, and no other, is the sub-map at `c`. */
  lemma RepresentsBucket(pe: seq<PathEntry>, m: Entries, depth: nat, i: nat, j: nat, c: Nibble)
    requires Represents(m, pe, depth) && i <= j <= |pe|
    requires forall n :: 0 <= n < |pe| ==> (i <= n < j <==> Turns(pe[n], depth, c))
    ensures Represents(Sub(m, c), pe[i..j], depth + 1)
  {
    var s, b := Sub(m, c), pe[i..j];
    forall n | 0 <= n < |b| ensures Holds(s, b[n], depth + 1) {
      var e := pe[i + n];
      assert b[n] == e;
      assert Turns(e, depth, c) && Holds(m, e, depth);
      assert e.path[depth..] == [c] + e.path[depth + 1..];
    }
    forall k | k in s ensures Covered(b, depth + 1, k) {
      assert [c] + k in m && Covered(pe, depth, [c] + k);
      var n :| 0 <= n < |pe| && Drops(pe[n], depth, [c] + k);
      assert pe[n].path[depth..][0] == c && pe[n].path[depth..][1..] == k;
      assert Turns(pe[n], depth, c);
      assert b[n - i] == pe[n];
      assert Drops(b[n - i], depth + 1, k);
    }
  }

  /** The path goes on from `depth` with nibble `c`. */
  predicate Turns(e: PathEntry, depth: nat, c: Nibble) {
    |e.path| > depth && e.path[depth] == c
  }

  /** The nibble at `depth`; an entry that ends there comes before all others. */
  function At(e: PathEntry, depth: nat): int {
    if |e.path| <= depth then -1 else e.path[depth]
  }

  lemma AtSorted(pe: seq<PathEntry>, depth: nat, i: nat, j: nat)
    requires Sorted(pe) && Shared(pe, depth) && i < j < |pe|
    ensures At(pe[i], depth) <= At(pe[j], depth)
    ensures At(pe[j], depth) >= 0
  {
    assert Starts(pe[i], pe[0].path, depth) && Starts(pe[j], pe[0].path, depth);
    LessBelow(pe[i].path, pe[j].path, depth);
  }

  // ----- the recursive builder --------------------------------------------------------

  /** What the branch walk has filled in once it has passed the first `i` entries. */
  ghost predicate Filled(m: Entries, pe: seq<PathEntry>, depth: nat, i: nat, refs: seq<Ref>,
                         slot: Option<Value>, short: Encoding)
    requires i <= |pe|
  {
    && |refs| == 16
    && (forall c: Nibble :: refs[c] == if Passed(pe, depth, i, c) then RefOf(Canon(Sub(m, c), short), short) else NoRef)
    && slot == (if i > 0 && [] in m then Some(m[[]]) else None)
  }

  /** One of the first `i` entries turns to `c`. */
  predicate Passed(pe: seq<PathEntry>, depth: nat, i: nat, c: Nibble)
    requires i <= |pe|
  {
    exists n :: 0 <= n < i && Turns(pe[n], depth, c)
  }

  /** The walk stops between two buckets. */
  ghost predicate AtBoundary(pe: seq<PathEntry>, depth: nat, i: nat)
    requires i <= |pe|
  {
    i == 0 || i == |pe| || At(pe[i - 1], depth) < At(pe[i], depth)
  }

  lemma EmptySub(pe: seq<PathEntry>, m: Entries, depth: nat, c: Nibble)
    requires Represents(m, pe, depth)
    ensures Passed(pe, depth, |pe|, c) <==> Sub(m, c).Keys != {}
  {
    if n :| 0 <= n < |pe| && Turns(pe[n], depth, c) {
      assert Holds(m, pe[n], depth);
      assert pe[n].path[depth..] == [c] + pe[n].path[depth + 1..];
      assert pe[n].path[depth + 1..] in Sub(m, c).Keys;
    }
    if k :| k in Sub(m, c).Keys {
      assert Covered(pe, depth, [c] + k);
      var n :| 0 <= n < |pe| && Drops(pe[n], depth, [c] + k);
      assert pe[n].path[depth..][0] == c;
      assert Turns(pe[n], depth, c);
    }
  }

  lemma SlotOfFirst(pe: seq<PathEntry>, m: Entries, depth: nat)
    requires |pe| >= 1 && Sorted(pe) && Shared(pe, depth) && Represents(m, pe, depth)
    ensures [] in m <==> |pe[0].path| == depth
    ensures [] in m ==> m[[]] == pe[0].value
    ensures forall i :: 0 < i < |pe| ==> At(pe[i], depth) >= 0
  {
    assert Holds(m, pe[0], depth);
    assert |pe[0].path| == depth ==> pe[0].path[depth..] == [];
    forall i | 0 < i < |pe| ensures At(pe[i], depth) >= 0 { AtSorted(pe, depth, 0, i); }
    if [] in m {
      assert Covered(pe, depth, []);
      var n :| 0 <= n < |pe| && Drops(pe[n], depth, []);
      assert |pe[n].path| == depth;
    }
  }

  /** Everything walked: the parts are those of the canonical branch. */
  lemma FilledIsBranch(m: Entries, pe: seq<PathEntry>, depth: nat, refs: seq<Ref>, slot: Option<Value>, short: Encoding)
    requires Splits(m) && LongestPrefix(m) == [] && |pe| > 0 && Represents(m, pe, depth)
    requires Filled(m, pe, depth, |pe|, refs, slot, short)
    ensures Canon(m, short) == Some(BranchNode(refs, slot))
  {
    CanonAtSplit(m, short);
    var n := Canon(m, short).value;
    BranchInverse(m, n, short);
    forall c: Nibble ensures refs[c] == n.children[c] {
      EmptySub(pe, m, depth, c);
    }
    assert refs == n.children;
  }

  /** The run of entries from `i` to `j` is the whole bucket of its nibble. */
  lemma WholeBucket(pe: seq<PathEntry>, depth: nat, i: nat, j: nat, c: Nibble)
    requires Sorted(pe) && Shared(pe, depth) && i < j <= |pe|
    requires AtBoundary(pe, depth, i) && Turns(pe[i], depth, c)
    requires forall n :: i <= n < j ==> Turns(pe[n], depth, c)
    requires j < |pe| ==> !Turns(pe[j], depth, c)
    ensures forall n :: 0 <= n < |pe| ==> (i <= n < j <==> Turns(pe[n], depth, c))
    ensures AtBoundary(pe, depth, j)
    ensures !Passed(pe, depth, i, c)
  {
    forall n | 0 <= n < |pe| && !(i <= n < j) ensures !Turns(pe[n], depth, c) {
      if n < i {
        if n < i - 1 { AtSorted(pe, depth, n, i - 1); }
      } else {
        AtSorted(pe, depth, i, j);
        if j < n { AtSorted(pe, depth, j, n); }
      }
    }
    if j < |pe| { AtSorted(pe, depth, j - 1, j); }
  }

  lemma BucketFilled(m: Entries, pe: seq<PathEntry>, depth: nat, i: nat, j: nat, c: Nibble, n: Node,
                     refs: seq<Ref>, slot: Option<Value>, short: Encoding)
    requires Represents(m, pe, depth) && i < j <= |pe| && Filled(m, pe, depth, i, refs, slot, short)
    requires forall n :: i <= n < j ==> Turns(pe[n], depth, c)
    requires Canon(Sub(m, c), short) == Some(n)
    requires i == 0 ==> [] !in m
    ensures Filled(m, pe, depth, j, refs[c := Cap(n, short)], slot, short)
  {
    assert Turns(pe[i], depth, c);
    forall d: Nibble ensures Passed(pe, depth, j, d) <==> Passed(pe, depth, i, d) || d == c {
      if k :| 0 <= k < j && Turns(pe[k], depth, d) {
        assert k < i || Turns(pe[k], depth, c);
      }
      assert Passed(pe, depth, i, d) ==> Passed(pe, depth, j, d);
    }
  }

  lemma SharedRun(pe: seq<PathEntry>, depth: nat, i: nat, j: nat, c: Nibble)
    requires Sorted(pe) && Shared(pe, depth) && i < j <= |pe|
    requires forall n :: i <= n < j ==> Turns(pe[n], depth, c)
    ensures Sorted(pe[i..j]) && Shared(pe[i..j], depth + 1)
  {
    var b := pe[i..j];
    assert Starts(pe[i], pe[0].path, depth) && Turns(pe[i], depth, c);
    forall n | 0 <= n < |b| ensures Starts(b[n], b[0].path, depth + 1) {
      assert b[n] == pe[i + n] && Turns(pe[i + n], depth, c) && Starts(pe[i + n], pe[0].path, depth);
      assert b[n].path[..depth + 1] == b[n].path[..depth] + [c];
      assert b[0].path[..depth + 1] == b[0].path[..depth] + [c];
    }
  }

  lemma SingleEntry(pe: seq<PathEntry>, m: Entries, depth: nat, short: Encoding)
    requires |pe| == 1 && Represents(m, pe, depth)
    ensures depth <= |pe[0].path| && Canon(m, short) == Some(LeafNode(pe[0].path[depth..], pe[0].value))
  {
    assert Holds(m, pe[0], depth);
    forall k | k in m ensures k == pe[0].path[depth..] {
      assert Covered(pe, depth, k);
    }
    assert m.Keys == {pe[0].path[depth..]};
    OneEntry(m, pe[0].path[depth..], short);
  }

  predicate Bounded(pe: seq<PathEntry>, h: nat) {
    forall i :: 0 <= i < |pe| ==> |pe[i].path| <= h
  }

  /** Sorting and splitting builds exactly the canonical trie. */
  method BuildNode(pe: seq<PathEntry>, depth: nat, short: Encoding, ghost m: Entries, ghost h: nat) returns (n: Node)
    requires |pe| >= 1 && Sorted(pe) && Shared(pe, depth) && Bounded(pe, h)
    requires Represents(m, pe, depth)
    ensures Canon(m, short) == Some(n)
    decreases h + 1 - depth, 1
  {
    assert Starts(pe[0], pe[0].path, depth);
    if |pe| == 1 {
      SingleEntry(pe, m, depth, short);
      return LeafNode(pe[0].path[depth..], pe[0].value);
    }
    var first, last := pe[0].path, pe[|pe| - 1].path;
    LessTotal(first, last);
    var common := CommonLength(pe, depth);
    AllShare(pe, common);
    FirstAndLast(pe, m, depth, common);
    PrefixUnique(m, first[depth..common], LongestPrefix(m));
    if common > depth {
      RepresentsStrip(pe, m, depth, common);
      CanonExtension(m, short);
      var child := BuildNode(pe, common, short, Strip(m, first[depth..common]), h);
      return ExtensionNode(first[depth..common], Cap(child, short));
    }
    n := BuildBranch(pe, depth, short, m, h);
  }

  method CommonLength(pe: seq<PathEntry>, depth: nat) returns (common: nat)
    requires |pe| >= 2 && Shared(pe, depth)
    ensures depth <= common && Starts(pe[|pe| - 1], pe[0].path, common)
    ensures var a, z := pe[0].path, pe[|pe| - 1].path;
            common == |a| || common == |z| || a[common] != z[common]
  {
    var first, last := pe[0].path, pe[|pe| - 1].path;
    common := depth;
    assert Starts(pe[|pe| - 1], first, depth);
    while common < |first| && common < |last| && first[common] == last[common]
      invariant depth <= common && Starts(pe[|pe| - 1], first, common)
    {
      common := common + 1;
    }
  }

  /** The end of the run of entries that turn the way entry `i` does. */
  method RunEnd(pe: seq<PathEntry>, depth: nat, i: nat) returns (j: nat)
    requires i < |pe| && depth < |pe[i].path|
    ensures i < j <= |pe| && forall k :: i <= k < j ==> Turns(pe[k], depth, pe[i].path[depth])
    ensures j < |pe| ==> !Turns(pe[j], depth, pe[i].path[depth])
  {
    var nib := pe[i].path[depth];
    j := i + 1;
    while j < |pe| && |pe[j].path| > depth && pe[j].path[depth] == nib
      invariant i < j <= |pe|
      invariant forall k :: i <= k < j ==> Turns(pe[k], depth, nib)
    {
      j := j + 1;
    }
  }

  method BuildBranch(pe: seq<PathEntry>, depth: nat, short: Encoding, ghost m: Entries, ghost h: nat) returns (n: Node)
    requires |pe| >= 2 && Sorted(pe) && Shared(pe, depth) && Bounded(pe, h)
    requires Represents(m, pe, depth)
    requires Splits(m) && LongestPrefix(m) == []
    ensures Canon(m, short) == Some(n)
    decreases h + 1 - depth, 0
  {
    var refs: seq<Ref> := seq(16, _ => NoRef);
    var slot: Option<Value> := None;
    var i := 0;
    SlotOfFirst(pe, m, depth);
    while i < |pe|
      invariant i <= |pe| && AtBoundary(pe, depth, i)
      invariant Filled(m, pe, depth, i, refs, slot, short)
      decreases |pe| - i
    {
      assert Starts(pe[i], pe[0].path, depth);
      if |pe[i].path| == depth {
        assert i == 0 && At(pe[1], depth) >= 0;
        slot := Some(pe[i].value);
        i := i + 1;
        continue;
      }
      var nib := pe[i].path[depth];
      var j := RunEnd(pe, depth, i);
      WholeBucket(pe, depth, i, j, nib);
      RepresentsBucket(pe, m, depth, i, j, nib);
      SharedRun(pe, depth, i, j, nib);
      var child := BuildNode(pe[i..j], depth + 1, short, Sub(m, nib), h);
      BucketFilled(m, pe, depth, i, j, nib, child, refs, slot, short);
      refs := refs[nib := Cap(child, short)];
      i := j;
    }
    FilledIsBranch(m, pe, depth, refs, slot, short);
    n := BranchNode(refs, slot);
  }

  // ----- the trie class -----------------------------------------------------------------

  /** Insert one entry at its place in a sorted sequence. */
  method InsertSorted(pe: seq<PathEntry>, e: PathEntry) returns (r: seq<PathEntry>)
    requires Sorted(pe) && forall x :: x in pe ==> x.path != e.path
    ensures Sorted(r) && forall x :: x in r <==> x in pe || x == e
  {
    var i := 0;
    while i < |pe| && Less(pe[i].path, e.path)
      invariant i <= |pe| && forall k :: 0 <= k < i ==> Less(pe[k].path, e.path)
    {
      i := i + 1;
    }
    r := pe[..i] + [e] + pe[i..];
    forall k | i <= k < |pe| ensures Less(e.path, pe[k].path) {
      LessTotal(pe[i].path, e.path);
      if i < k { LessTrans(e.path, pe[i].path, pe[k].path); }
    }
    assert forall x :: x in pe <==> x in pe[..i] || x in pe[i..] by { assert pe == pe[..i] + pe[i..]; }
  }

  ghost predicate DistinctKeys(entries: seq<Entry>) {
    forall i, j :: 0 <= i < j < |entries| ==> entries[i].key != entries[j].key
  }

  function PathOf(e: Entry): PathEntry {
    PathEntry(Nibbles(e.key), e.value)
  }

  /** `pe` holds the paths of exactly these entries. */
  ghost predicate SamePaths(entries: seq<Entry>, pe: seq<PathEntry>) {
    && (forall i :: 0 <= i < |entries| ==> PathOf(entries[i]) in pe)
    && (forall x :: x in pe ==> PathIn(entries, x))
  }

  ghost predicate PathIn(entries: seq<Entry>, x: PathEntry) {
    exists i :: 0 <= i < |entries| && x == PathOf(entries[i])
  }

  /** The map a sequence of entries spells. */
  ghost predicate Spells(m: Entries, entries: seq<Entry>) {
    && (forall i :: 0 <= i < |entries| ==> Nibbles(entries[i].key) in m && m[Nibbles(entries[i].key)] == entries[i].value)
    && (forall k {:trigger IsKey(entries, k)} :: k in m ==> IsKey(entries, k))
  }

  ghost predicate IsKey(entries: seq<Entry>, k: Path) {
    exists i :: 0 <= i < |entries| && k == Nibbles(entries[i].key)
  }

  lemma SpellsRepresents(m: Entries, entries: seq<Entry>, pe: seq<PathEntry>)
    requires Spells(m, entries) && SamePaths(entries, pe)
    ensures Represents(m, pe, 0) && Shared(pe, 0)
  {
    forall i | 0 <= i < |pe| ensures Holds(m, pe[i], 0) {
      assert pe[i] in pe && PathIn(entries, pe[i]);
      var j :| 0 <= j < |entries| && pe[i] == PathOf(entries[j]);
      assert pe[i].path[0..] == pe[i].path;
    }
    forall k | k in m ensures Covered(pe, 0, k) {
      assert IsKey(entries, k);
      var j :| 0 <= j < |entries| && k == Nibbles(entries[j].key);
      var i :| 0 <= i < |pe| && pe[i] == PathOf(entries[j]);
      assert pe[i].path[0..] == pe[i].path;
      assert Drops(pe[i], 0, k);
    }
  }

  /** Root of the canonical trie with every short node inlined (Yellow Paper, Appendix D). */
  ghost function CanonRoot(m: Entries, short: Encoding): Hash {
    match Canon(m, short)
    case None => EmptyTrieRoot
    case Some(n) => Digest(n)
  }

  /** Entries in another order spell the same map, so they have the same root. */
  lemma OrderIrrelevant(m: Entries, a: seq<Entry>, b: seq<Entry>)
    requires Spells(m, a) && multiset(a) == multiset(b)
    ensures Spells(m, b)
  {
    assert forall e :: e in multiset(a) <==> e in multiset(b);
    forall i | 0 <= i < |b| ensures Nibbles(b[i].key) in m && m[Nibbles(b[i].key)] == b[i].value {
      assert b[i] in multiset(b);
      var j :| 0 <= j < |a| && a[j] == b[i];
    }
    forall k | k in m ensures IsKey(b, k) {
      assert IsKey(a, k);
      var j :| 0 <= j < |a| && k == Nibbles(a[j].key);
      assert a[j] in multiset(a);
      var i :| 0 <= i < |b| && b[i] == a[j];
    }
  }

  function Longest(pe: seq<PathEntry>): (h: nat)
    ensures Bounded(pe, h)
  {
    if pe == [] then 0
    else
      var h := Longest(pe[..|pe| - 1]);
      var l := |pe[|pe| - 1].path|;
      assert forall i :: 0 <= i < |pe| - 1 ==> pe[i] == pe[..|pe| - 1][i];
      if l > h then l else h
  }

  lemma InsertedDistinct(entries: seq<Entry>, x: Entry)
    ensures DistinctKeys(entries + [x]) <==> DistinctKeys(entries) && forall e :: e in entries ==> e.key != x.key
  {
    var more := entries + [x];
    if DistinctKeys(more) {
      forall i, j | 0 <= i < j < |entries| ensures entries[i].key != entries[j].key {
        assert more[i].key != more[j].key;
      }
      forall e | e in entries ensures e.key != x.key {
        var i :| 0 <= i < |entries| && entries[i] == e;
        assert more[i].key != more[|entries|].key;
      }
    }
  }

  class MerklePatriciaTrie {
    var entries: seq<Entry>

    constructor ()
      ensures entries == []
    {
      entries := [];
    }

    /** Repeated keys are the caller's fault. */
    method Insert(key: seq<Byte>, value: Value)
      modifies this
      ensures entries == old(entries) + [Entry(key, value)]
      ensures DistinctKeys(entries) <==> DistinctKeys(old(entries)) && forall e :: e in old(entries) ==> e.key != key
    {
      InsertedDistinct(entries, Entry(key, value));
      entries := entries + [Entry(key, value)];
    }

    method SortedPaths() returns (pe: seq<PathEntry>)
      requires DistinctKeys(entries)
      ensures Sorted(pe) && SamePaths(entries, pe)
    {
      pe := [];
      for i := 0 to |entries|
        invariant Sorted(pe) && SamePaths(entries[..i], pe)
      {
        var path := ToNibbles(entries[i].key);
        NewPath(entries, i, pe);
        ghost var before := pe;
        pe := InsertSorted(pe, PathEntry(path, entries[i].value));
        OneMore(entries, i, before, pe);
      }
      assert entries[..|entries|] == entries;
    }

    /** The root of the map the entries spell, in whatever order they came. */
    method RootHash(short: Encoding) returns (root: Hash)
      requires DistinctKeys(entries)
      ensures forall m :: Spells(m, entries) ==> root == CanonRoot(m, short)
    {
      if entries == [] {
        forall m | Spells(m, entries) ensures CanonRoot(m, short) == EmptyTrieRoot {
          assert forall k :: k in m ==> IsKey(entries, k);
          assert m.Keys == {};
        }
        return EmptyTrieRoot;
      }
      var pe := SortedPaths();
      assert PathOf(entries[0]) in pe;
      ghost var m := SpelledMap(entries);
      SpellsRepresents(m, entries, pe);
      var n := BuildNode(pe, 0, short, m, Longest(pe));
      root := Digest(n);
      forall m' | Spells(m', entries) ensures m' == m {
        SpellsUnique(m, m', entries);
      }
    }
  }

  lemma NewPath(entries: seq<Entry>, i: nat, pe: seq<PathEntry>)
    requires i < |entries| && DistinctKeys(entries) && SamePaths(entries[..i], pe)
    ensures forall x :: x in pe ==> x.path != Nibbles(entries[i].key)
  {
    forall x | x in pe ensures x.path != Nibbles(entries[i].key) {
      assert PathIn(entries[..i], x);
      var j :| 0 <= j < i && x == PathOf(entries[..i][j]);
      if x.path == Nibbles(entries[i].key) { NibblesInjective(entries[j].key, entries[i].key); }
    }
  }

  lemma OneMore(entries: seq<Entry>, i: nat, before: seq<PathEntry>, pe: seq<PathEntry>)
    requires i < |entries| && SamePaths(entries[..i], before)
    requires forall x :: x in pe <==> x in before || x == PathOf(entries[i])
    ensures SamePaths(entries[..i + 1], pe)
  {
    var a, b := entries[..i], entries[..i + 1];
    assert forall j :: 0 <= j < i ==> a[j] == b[j];
    assert b[i] == entries[i];
    forall x | x in pe ensures PathIn(b, x) {
      if x == PathOf(entries[i]) {
        assert x == PathOf(b[i]);
      } else {
        assert PathIn(a, x);
        var j :| 0 <= j < i && x == PathOf(a[j]);
        assert x == PathOf(b[j]);
      }
    }
  }

  lemma SpellsUnique(m: Entries, m': Entries, entries: seq<Entry>)
    requires Spells(m, entries) && Spells(m', entries)
    ensures m == m'
  {
    forall k ensures k in m <==> k in m' {
      assert k in m ==> IsKey(entries, k);
      assert k in m' ==> IsKey(entries, k);
    }
    forall k | k in m ensures m[k] == m'[k] {
      assert IsKey(entries, k);
    }
  }

  ghost function SpelledMap(entries: seq<Entry>): (m: Entries)
    requires DistinctKeys(entries)
    ensures Spells(m, entries)
  {
    if entries == [] then map[]
    else
      var n := |entries| - 1;
      var rest := SpelledMap(entries[..n]);
      var r := rest[Nibbles(entries[n].key) := entries[n].value];
      SpellsOneMore(rest, entries);
      r
  }

  lemma SpellsOneMore(rest: Entries, entries: seq<Entry>)
    requires entries != [] && DistinctKeys(entries)
    requires Spells(rest, entries[..|entries| - 1])
    ensures Spells(rest[Nibbles(entries[|entries| - 1].key) := entries[|entries| - 1].value], entries)
  {
    var n := |entries| - 1;
    var r := rest[Nibbles(entries[n].key) := entries[n].value];
    var a := entries[..n];
    forall i | 0 <= i < |entries|
      ensures Nibbles(entries[i].key) in r && r[Nibbles(entries[i].key)] == entries[i].value
    {
      if i < n {
        assert a[i] == entries[i];
        if Nibbles(entries[i].key) == Nibbles(entries[n].key) {
          NibblesInjective(entries[i].key, entries[n].key);
        }
      }
    }
    forall k | k in r ensures IsKey(entries, k) {
      if k != Nibbles(entries[n].key) {
        assert IsKey(a, k);
        var i :| 0 <= i < |a| && k == Nibbles(a[i].key);
        assert entries[i] == a[i];
      }
    }
  }

  // ----- the two engines compared ----------------------------------------------------------

  ghost predicate LongBranch(n: Option<Node>, short: Encoding) {
    n.Some? && n.value.BranchNode? ==> !short(n.value)
  }

  /** No branch below the root of the canonical trie is short enough to inline. */
  ghost predicate BranchesLong(m: Entries, short: Encoding)
    decreases MaxLen(m.Keys)
  {
    Splits(m) ==>
      var p := LongestPrefix(m);
      if p != [] then
        StripShrinks(m, p);
        LongBranch(Canon(Strip(m, p), short), short) && BranchesLong(Strip(m, p), short)
      else
        forall c: Nibble ::
          StripShrinks(m, [c]);
          LongBranch(Canon(Sub(m, c), short), short) && BranchesLong(Sub(m, c), short)
  }

  lemma SameKind(m: Entries, a: Encoding, b: Encoding)
    ensures Canon(m, a).Some? <==> Canon(m, b).Some?
    ensures Canon(m, a).Some? ==> (Canon(m, a).value.BranchNode? <==> Canon(m, b).value.BranchNode?)
  {
    if Canon(m, a).Some? && Canon(m, a).value.BranchNode? {
      BranchInverse(m, Canon(m, a).value, a);
      CanonAtSplit(m, b);
    }
    if Canon(m, b).Some? && Canon(m, b).value.BranchNode? {
      BranchInverse(m, Canon(m, b).value, b);
      CanonAtSplit(m, a);
    }
  }

  lemma SameRef(a: Option<Node>, b: Option<Node>, short: Encoding)
    requires a.Some? <==> b.Some?
    requires a.Some? ==> (a.value.BranchNode? <==> b.value.BranchNode?)
    ensures RefOf(a, HashedBranches(short)) == RefOf(b, short) <==> a == b && LongBranch(b, short)
  {
  }

  lemma {:induction false} EncodingsAgree(m: Entries, short: Encoding)
    ensures Canon(m, HashedBranches(short)) == Canon(m, short) <==> BranchesLong(m, short)
    decreases MaxLen(m.Keys)
  {
    var hashed := HashedBranches(short);
    if m.Keys == {} {
    } else if k :| m.Keys == {k} {
      OneEntry(m, k, hashed);
      OneEntry(m, k, short);
    } else if LongestPrefix(m) != [] {
      var s := Strip(m, LongestPrefix(m));
      StripShrinks(m, LongestPrefix(m));
      EncodingsAgree(s, short);
      SameKind(s, hashed, short);
      SameRef(Canon(s, hashed), Canon(s, short), short);
      CanonExtension(m, hashed);
      CanonExtension(m, short);
    } else {
      BranchesAgree(m, short);
    }
  }

  lemma {:induction false} BranchesAgree(m: Entries, short: Encoding)
    requires Splits(m) && LongestPrefix(m) == []
    ensures Canon(m, HashedBranches(short)) == Canon(m, short) <==> BranchesLong(m, short)
    decreases MaxLen(m.Keys), 0
  {
    var hashed := HashedBranches(short);
    CanonAtSplit(m, hashed);
    CanonAtSplit(m, short);
    var a, b := Canon(m, hashed).value, Canon(m, short).value;
    BranchInverse(m, a, hashed);
    BranchInverse(m, b, short);
    forall c: Nibble
      ensures a.children[c] == b.children[c] <==>
              LongBranch(Canon(Sub(m, c), short), short) && BranchesLong(Sub(m, c), short)
    {
      StripShrinks(m, [c]);
      EncodingsAgree(Sub(m, c), short);
      SameKind(Sub(m, c), hashed, short);
      SameRef(Canon(Sub(m, c), hashed), Canon(Sub(m, c), short), short);
    }
    assert a == b <==> a.children == b.children;
    assert a.children == b.children <==> forall c: Nibble :: a.children[c] == b.children[c];
  }

  lemma HashedRoot(m: Entries, short: Encoding)
    ensures TrieRoot(m, short) == CanonRoot(m, HashedBranches(short))
  {
  }

  /** The state-root engine and the sort-and-split builder give one map the same
      root exactly when no branch below the root is short. */
  lemma EnginesAgree(m: Entries, short: Encoding)
    ensures TrieRoot(m, short) == CanonRoot(m, short) <==> BranchesLong(m, short)
  {
    HashedRoot(m, short);
    EncodingsAgree(m, short);
  }

  /** The same for a fully opened witness tree: its root is the builder's root of
      the entries it holds. */
  lemma RevealedMatchesBuilder(t: Tree, m: Entries, v: Values, short: Encoding)
    requires Shaped(t, []) && Revealed(t)
    requires Updated(map[], m, t, [], v, short)
    ensures Finalize(Reduce(t, v, [], short), v) == CanonRoot(m, short) <==> BranchesLong(m, short)
  {
    RevealedIsCanonical(t, m, v, [], short);
    EnginesAgree(m, short);
  }

  /** Two entries below nibble 0 and one below nibble 1. */
  function ThreeEntries(v: Value): Entries {
    map[[0, 0] := v, [0, 1] := v, [1, 0] := v]
  }

  /** They disagree on these three entries under every encoding that inlines the branch
      below nibble 0; with one-byte values it takes 22 bytes. */
  lemma BuildersDisagree(v: Value, short: Encoding)
    ensures var inner := Canon(Sub(ThreeEntries(v), 0), short);
            && inner.Some? && inner.value.BranchNode?
            && (short(inner.value) ==> TrieRoot(ThreeEntries(v), short) != CanonRoot(ThreeEntries(v), short))
  {
    var m := ThreeEntries(v);
    var zero: Nibble, one: Nibble := 0, 1;
    assert [zero, zero] + [] == [0, 0] && [zero, one] + [] == [0, 1];
    PartAtSecond(m, zero, zero, one, [], short);
    assert [zero] + [zero] == [0, 0] && [one] + [zero] == [1, 0];
    assert [zero] in Sub(m, zero) && [zero] in Sub(m, one);
    CanonBranch(m, zero, one, short);
    EnginesAgree(m, short);
  }
}
