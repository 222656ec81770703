/** The new root is right when the old root was.

    A witness opens only part of the pre-state trie and is not trusted.  If its
    reduction over the block-start values has the root of the true pre-state, then
    its reduction over the current values has the root of the updated state, unless
    a branch folds onto a subtree the witness did not open, or an extension without
    nibbles, which only passes below a fold, is no longer an only child. */
module TrieSoundness {
  import opened Basics
  import opened TrieTerms
  import opened TrieReduce
  import opened Canonical

  /** A result with its table values filled in. */
  datatype Res = RNone | RHash(hash: Hash) | RNode(node: Node)

  function Meaning(r: NodeR, v: Values): (res: Res)
    ensures res.RNode? ==> !res.node.BranchNode?
    ensures res.RNone? <==> r.EmptyR?
  {
    match r
    case EmptyR => RNone
    case HashR(h) => RHash(h)
    case _ => RNode(NodeOf(r, v))
  }

  /** A canonical node as the engine carries it: branches only by hash. */
  function Carried(n: Option<Node>): (res: Res)
    ensures res.RNode? ==> !res.node.BranchNode?
    ensures res.RNone? <==> n.None?
  {
    match n
    case None => RNone
    case Some(node) => if node.BranchNode? then RHash(Digest(node)) else RNode(node)
  }

  ghost function CanonR(m: Entries, short: Encoding): Res {
    Carried(Canon(m, HashedBranches(short)))
  }

  function RefR(r: Res, short: Encoding): Ref {
    match r
    case RNone => NoRef
    case RHash(h) => HashRef(h)
    case RNode(n) => Cap(n, short)
  }

  function RootR(r: Res): Hash {
    match r
    case RNone => EmptyTrieRoot
    case RHash(h) => h
    case RNode(n) => Digest(n)
  }

  /** `r` is `c`, or the bare hash of the leaf or extension `c`. */
  predicate Matches(r: Res, c: Res) {
    r == c || (r.RHash? && c.RNode? && r.hash == Digest(c.node))
  }

  lemma SameRefMatches(r: Res, c: Option<Node>, short: Encoding)
    requires r.RNode? ==> !r.node.BranchNode?
    requires RefR(r, short) == RefR(Carried(c), short)
    ensures Matches(r, Carried(c))
  {
  }

  // ----- what the witness opens --------------------------------------------------

  /** The leaf of the tree whose remaining key is `k`. */
  function Lookup(t: Tree, k: Path, at: Path): (leaf: Option<Tree>)
    requires Shaped(t, at)
    ensures leaf.Some? ==> leaf.value.SlotT? || (leaf.value.AccountT? && Shaped(leaf.value.storage, []))
    decreases t
  {
    match t
    case BranchT(ch) => if k == [] then None else Lookup(ch[k[0]], k[1..], at + [k[0]])
    case SlotT(key, _) => if k == key[|at|..] then Some(t) else None
    case AccountT(key, _, _) => if k == key[|at|..] then Some(t) else None
    case _ => None
  }

  ghost function Get(m: Entries, k: Path): Option<Value> {
    if k in m then Some(m[k]) else None
  }

  /** `m'` is `m` with every opened leaf set to its value in `v`. */
  ghost predicate Updated(m: Entries, m': Entries, t: Tree, at: Path, v: Values, short: Encoding)
    requires Shaped(t, at)
  {
    forall k: Path :: UpdatedAt(m, m', t, at, v, short, k)
  }

  ghost predicate UpdatedAt(m: Entries, m': Entries, t: Tree, at: Path, v: Values, short: Encoding, k: Path)
    requires Shaped(t, at)
  {
    var leaf := Lookup(t, k, at);
    Get(m', k) == if leaf.None? then Get(m, k) else LeafValue(leaf.value, v, short)
  }

  /** No unopened extension has an empty path. */
  predicate RealExtensions(t: Tree) {
    match t
    case ExtT(p, _) => p != []
    case BranchT(ch) => forall k :: 0 <= k < |ch| ==> RealExtensions(ch[k])
    case AccountT(_, _, storage) => RealExtensions(storage)
    case _ => true
  }

  /** An extension without nibbles folds like the bare hash below it. */
  function Norm(r: NodeR): NodeR {
    if r.ExtR? && r.ext == [] then HashR(r.hash) else r
  }

  predicate EmptyExtension(t: Tree) {
    t.ExtT? && t.ext == []
  }

  /** Every extension without nibbles is the only child that is left of its branch. */
  predicate EmptyAlone(t: Tree, v: Values, at: Path, short: Encoding)
    requires Shaped(t, at)
  {
    t.BranchT? ==>
      forall k: Nibble ::
        && EmptyAlone(t.children[k], v, at + [k], short)
        && (EmptyExtension(t.children[k]) ==> OnlyLive(ChildResults(t, v, at, short), k))
  }

  /** The same in the storage of every account that exists. */
  predicate StoragesAlone(t: Tree, v: Values, at: Path, short: Encoding)
    requires Shaped(t, at)
  {
    match t
    case BranchT(ch) => forall k: Nibble :: StoragesAlone(ch[k], v, at + [k], short)
    case AccountT(_, i, storage) => AccountAt(v, i) != EMPTY_ACCOUNT ==> EmptyAlone(storage, v, [], short)
    case _ => true
  }

  /** A witness without such extensions is never concerned. */
  lemma {:induction false} RealAlone(t: Tree, v: Values, at: Path, short: Encoding)
    requires Shaped(t, at) && RealExtensions(t)
    ensures EmptyAlone(t, v, at, short) && StoragesAlone(t, v, at, short)
    decreases t
  {
    if t.BranchT? {
      forall k: Nibble
        ensures EmptyAlone(t.children[k], v, at + [k], short) && StoragesAlone(t.children[k], v, at + [k], short)
      {
        RealAlone(t.children[k], v, at + [k], short);
      }
    } else if t.AccountT? {
      RealAlone(t.storage, v, [], short);
    }
  }

  /** No branch that had two children folds, in the current values, onto a subtree
      the witness gives only by hash. */
  ghost predicate Foldable(t: Tree, orig: Values, cur: Values, at: Path, short: Encoding)
    requires Shaped(t, at)
    decreases t
  {
    match t
    case BranchT(ch) =>
      && (forall k: Nibble :: Foldable(ch[k], orig, cur, at + [k], short))
      && (forall k: Nibble :: ch[k].HashT? && OnlyLive(ChildResults(t, cur, at, short), k)
                              ==> OnlyLive(ChildResults(t, orig, at, short), k))
    case AccountT(_, _, storage) => Foldable(storage, orig, cur, [], short)
    case _ => true
  }

  // ----- one level down ------------------------------------------------------------

  lemma NothingOpened(m: Entries, m': Entries, t: Tree, at: Path, v: Values, short: Encoding)
    requires Shaped(t, at) && Updated(m, m', t, at, v, short)
    requires t.EmptyT? || t.HashT? || t.ExtT? || t.PhantomT?
    ensures m' == m
  {
    forall k: Path ensures Get(m', k) == Get(m, k) {
      assert UpdatedAt(m, m', t, at, v, short, k);
    }
    assert forall k: Path :: k in m' <==> Get(m', k).Some?;
    assert m'.Keys == m.Keys;
  }

  lemma UpdatedBelow(m: Entries, m': Entries, t: Tree, at: Path, v: Values, short: Encoding, c: Nibble)
    requires t.BranchT? && Shaped(t, at) && Updated(m, m', t, at, v, short)
    ensures Updated(Sub(m, c), Sub(m', c), t.children[c], at + [c], v, short)
    ensures [] in m' <==> [] in m
  {
    assert UpdatedAt(m, m', t, at, v, short, []);
    forall k: Path ensures UpdatedAt(Sub(m, c), Sub(m', c), t.children[c], at + [c], v, short, k) {
      assert UpdatedAt(m, m', t, at, v, short, [c] + k);
      assert ([c] + k)[1..] == k;
    }
  }

  /** Only an unopened extension reduces to an extension without nibbles. */
  lemma FoldsHaveNibbles(t: Tree, v: Values, at: Path, short: Encoding)
    requires Shaped(t, at) && !EmptyExtension(t)
    ensures Norm(Reduce(t, v, at, short)) == Reduce(t, v, at, short)
  {
  }

  /** The reduction of a branch, by the number of its live children. */
  lemma BranchCases(t: Tree, v: Values, at: Path, short: Encoding)
    requires t.BranchT? && Shaped(t, at)
    ensures var rs, r := ChildResults(t, v, at, short), Reduce(t, v, at, short);
            && (Live(rs) == {} ==> r == EmptyR)
            && (forall k: Nibble :: OnlyLive(rs, k) ==> r == FoldNibble(k, rs[k]))
            && (forall i: Nibble, j: Nibble :: i != j && i in Live(rs) && j in Live(rs) ==>
                  r == HashR(Digest(BranchNode(seq(16, (k: Nibble) => SlotRef(rs[k], v, short)), None))))
  {
    var rs := ChildResults(t, v, at, short);
    assert rs == seq(16, (k: Nibble) => Reduce(t.children[k], v, at + [k], short));
    assert Reduce(t, v, at, short) == Branched(rs, v, short);
    forall k: Nibble, k': Nibble | OnlyLive(rs, k) && OnlyLive(rs, k') ensures k == k' {
      assert k in Live(rs);
    }
    forall i: Nibble, j: Nibble | i != j && i in Live(rs) && j in Live(rs)
      ensures !exists k: Nibble :: OnlyLive(rs, k)
    {
      assert forall k: Nibble :: OnlyLive(rs, k) ==> i in Live(rs) && j in Live(rs);
    }
  }

  lemma RefsAgree(n: Option<Node>, short: Encoding)
    ensures RefOf(n, HashedBranches(short)) == RefR(Carried(n), short)
  {
  }

  lemma FoldLengthens(k: Nibble, r: NodeR, v: Values, n: Option<Node>, short: Encoding)
    requires Meaning(r, v) == Carried(n)
    ensures Meaning(FoldNibble(k, r), v) == Carried(Lengthen(k, n, HashedBranches(short)))
  {
  }

  /** A fold that gives a lengthened node folds the node itself. */
  lemma FoldInverse(k: Nibble, r: NodeR, v: Values, n: Option<Node>, short: Encoding)
    requires !r.EmptyR? && (r.ExtR? ==> r.ext != [])
    requires n.Some? && n.value.ExtensionNode? ==> n.value.path != []
    requires Lengthen(k, n, HashedBranches(short)) == Some(NodeOf(FoldNibble(k, r), v))
    ensures Meaning(r, v) == Carried(n)
  {
    assert forall p: Path, q: Path :: [k] + p == [k] + q ==> ([k] + p)[1..] == ([k] + q)[1..];
    assert forall p: Path :: ([k] + p)[1..] == p;
  }

  /** All keys of a map start with the first nibble of its canonical node. */
  lemma NodeUnder(m: Entries, n: Node, short: Encoding)
    requires Canon(m, short) == Some(n) && !n.BranchNode? && n.path != []
    ensures Under(m, n.path[0])
  {
    match n
    case LeafNode(p, value) => LeafInverse(m, p, value, short);
    case ExtensionNode(p, c) => ExtensionInverse(m, p, c, short);
  }

  lemma ExtensionsLong(m: Entries, short: Encoding)
    ensures var n := Canon(m, short); n.Some? && n.value.ExtensionNode? ==> n.value.path != []
  {
  }

  /** A fold that is a canonical node folds the canonical node below. */
  lemma FoldAnchors(k: Nibble, r: NodeR, v: Values, m: Entries, short: Encoding)
    requires !r.EmptyR?
    requires Matches(Meaning(FoldNibble(k, r), v), CanonR(m, short))
    ensures Under(m, k)
    ensures Meaning(Norm(r), v) == CanonR(Sub(m, k), short)
  {
    var s := HashedBranches(short);
    NormFolds(k, r);
    NodeUnder(m, NodeOf(FoldNibble(k, r), v), s);
    CanonUnder(m, k, s);
    ExtensionsLong(Sub(m, k), s);
    FoldInverse(k, Norm(r), v, Canon(Sub(m, k), s), short);
  }

  lemma NormFolds(k: Nibble, r: NodeR)
    ensures FoldNibble(k, Norm(r)) == FoldNibble(k, r)
  {
    assert [k] + [] == [k];
  }

  /** A canonical reference is never one to an extension without nibbles. */
  lemma NeverEmpty(r: NodeR, v: Values, m: Entries, short: Encoding)
    requires RefR(Meaning(r, v), short) == RefR(CanonR(m, short), short) ||
             Matches(Meaning(r, v), CanonR(m, short))
    ensures Norm(r) == r
  {
    ExtensionsLong(m, HashedBranches(short));
  }

  /** The children of a packed branch are the references below the map. */
  lemma PackedAnchors(refs: seq<Ref>, m: Entries, short: Encoding)
    requires |refs| == 16
    requires Matches(RHash(Digest(BranchNode(refs, None))), CanonR(m, short))
    ensures [] !in m
    ensures forall c: Nibble :: refs[c] == RefR(CanonR(Sub(m, c), short), short)
  {
    var s := HashedBranches(short);
    var n := BranchNode(refs, None);
    assert Canon(m, s) == Some(n);
    BranchInverse(m, n, s);
    forall c: Nibble ensures refs[c] == RefR(CanonR(Sub(m, c), short), short) {
      RefsAgree(Canon(Sub(m, c), s), short);
    }
  }

  /** Every child's reference is canonical; an only child is the canonical node, where
      an extension without nibbles counts as the hash below it. */
  ghost predicate ChildrenAnchored(rs: seq<NodeR>, m: Entries, v: Values, short: Encoding)
    requires |rs| == 16
  {
    && [] !in m
    && (forall c: Nibble :: RefR(Meaning(Norm(rs[c]), v), short) == RefR(CanonR(Sub(m, c), short), short))
    && (forall k: Nibble :: OnlyLive(rs, k) ==> Meaning(Norm(rs[k]), v) == CanonR(Sub(m, k), short))
    && (forall k: Nibble :: Norm(rs[k]) != rs[k] ==> OnlyLive(rs, k))
  }

  lemma AnchorNone(rs: seq<NodeR>, m: Entries, v: Values, short: Encoding)
    requires |rs| == 16 && Live(rs) == {} && CanonR(m, short) == RNone
    ensures ChildrenAnchored(rs, m, v, short)
  {
    forall c: Nibble ensures rs[c].EmptyR? && Sub(m, c).Keys == {} {
      assert c !in Live(rs);
    }
  }

  lemma AnchorOne(rs: seq<NodeR>, k: Nibble, m: Entries, v: Values, short: Encoding)
    requires |rs| == 16 && OnlyLive(rs, k)
    requires Matches(Meaning(FoldNibble(k, rs[k]), v), CanonR(m, short))
    ensures ChildrenAnchored(rs, m, v, short)
  {
    assert k in Live(rs);
    FoldAnchors(k, rs[k], v, m, short);
    assert [] !in m;
    forall c: Nibble | c != k ensures rs[c].EmptyR? && Sub(m, c).Keys == {} {
      assert c !in Live(rs);
      assert forall q: Path :: ([c] + q)[0] == c;
      assert forall q: Path :: q in Sub(m, c) ==> [c] + q in m;
    }
    forall c: Nibble | OnlyLive(rs, c) ensures c == k {
      assert k in Live(rs);
    }
  }

  lemma AnchorMany(rs: seq<NodeR>, i: Nibble, j: Nibble, m: Entries, v: Values, short: Encoding)
    requires |rs| == 16 && i != j && i in Live(rs) && j in Live(rs)
    requires Matches(RHash(Digest(BranchNode(seq(16, (k: Nibble) => SlotRef(rs[k], v, short)), None))),
                     CanonR(m, short))
    ensures ChildrenAnchored(rs, m, v, short)
  {
    var refs := seq(16, (k: Nibble) => SlotRef(rs[k], v, short));
    PackedAnchors(refs, m, short);
    forall c: Nibble
      ensures Norm(rs[c]) == rs[c] && RefR(Meaning(rs[c], v), short) == RefR(CanonR(Sub(m, c), short), short)
    {
      assert refs[c] == RefR(Meaning(rs[c], v), short);
      NeverEmpty(rs[c], v, Sub(m, c), short);
    }
    assert forall k: Nibble :: OnlyLive(rs, k) ==> i in Live(rs) && j in Live(rs);
  }

  lemma TwoLive(rs: seq<NodeR>) returns (i: Nibble, j: Nibble)
    requires |rs| == 16 && Live(rs) != {} && !exists k: Nibble :: OnlyLive(rs, k)
    ensures i != j && i in Live(rs) && j in Live(rs)
  {
    i :| i in Live(rs);
    assert !OnlyLive(rs, i);
    j :| j in Live(rs) && j != i;
  }

  /** A branch whose reduction is canonical has canonical children. */
  lemma BranchAnchors(t: Tree, m: Entries, v: Values, at: Path, short: Encoding)
    requires t.BranchT? && Shaped(t, at)
    requires Matches(Meaning(Reduce(t, v, at, short), v), CanonR(m, short))
    ensures ChildrenAnchored(ChildResults(t, v, at, short), m, v, short)
  {
    var rs := ChildResults(t, v, at, short);
    BranchCases(t, v, at, short);
    if Live(rs) == {} {
      AnchorNone(rs, m, v, short);
    } else if k: Nibble :| OnlyLive(rs, k) {
      AnchorOne(rs, k, m, v, short);
    } else {
      var i, j := TwoLive(rs);
      AnchorMany(rs, i, j, m, v, short);
    }
  }

  // ----- the update ------------------------------------------------------------------

  /** A map all of whose keys lie below one live nibble, or split at several, from
      its sub-maps. */
  lemma AssembleNone(m: Entries, short: Encoding)
    requires [] !in m && forall c: Nibble :: Sub(m, c).Keys == {}
    ensures CanonR(m, short) == RNone
  {
    forall k: Path | k != [] ensures k in m <==> k[1..] in Sub(m, k[0]) {
      assert [k[0]] + k[1..] == k;
    }
    assert m.Keys == {};
  }

  lemma AssembleOne(m: Entries, k: Nibble, r: NodeR, v: Values, short: Encoding)
    requires [] !in m && forall c: Nibble :: c != k ==> Sub(m, c).Keys == {}
    requires Meaning(r, v) == CanonR(Sub(m, k), short)
    ensures Meaning(FoldNibble(k, r), v) == CanonR(m, short)
  {
    var s := HashedBranches(short);
    forall q | q in m ensures [k] <= q {
      assert [q[0]] + q[1..] == q;
      assert q[1..] in Sub(m, q[0]);
    }
    CanonUnder(m, k, s);
    FoldLengthens(k, r, v, Canon(Sub(m, k), s), short);
  }

  lemma AssembleMany(m: Entries, i: Nibble, j: Nibble, refs: seq<Ref>, short: Encoding)
    requires [] !in m && i != j && Sub(m, i).Keys != {} && Sub(m, j).Keys != {}
    requires |refs| == 16 && forall c: Nibble :: refs[c] == RefR(CanonR(Sub(m, c), short), short)
    ensures RHash(Digest(BranchNode(refs, None))) == CanonR(m, short)
  {
    var s := HashedBranches(short);
    CanonBranch(m, i, j, s);
    var canon := seq(16, (c: Nibble) => RefOf(Canon(Sub(m, c), s), s));
    forall c: Nibble ensures refs[c] == canon[c] {
      RefsAgree(Canon(Sub(m, c), s), short);
    }
    assert refs == canon;
  }

  /** What the induction gives for one child after the update. */
  ghost predicate ChildUpdated(t: Tree, r: NodeR, m: Entries, m': Entries, v: Values, short: Encoding) {
    Meaning(Norm(r), v) == CanonR(m', short) || (t.HashT? && r == HashR(t.hash) && m' == m)
  }

  lemma ChildRefs(t: Tree, r: NodeR, r': NodeR, m: Entries, m': Entries,
                  orig: Values, cur: Values, short: Encoding)
    requires ChildUpdated(t, r', m, m', cur, short)
    requires t.HashT? ==> r == HashR(t.hash)
    requires RefR(Meaning(Norm(r), orig), short) == RefR(CanonR(m, short), short)
    ensures RefR(Meaning(Norm(r'), cur), short) == RefR(CanonR(m', short), short)
    ensures r'.EmptyR? <==> m'.Keys == {}
  {
  }

  lemma LiveBelow(rs: seq<NodeR>, m: Entries, v: Values, short: Encoding, c: Nibble)
    requires |rs| == 16 && ChildrenAnchored(rs, m, v, short)
    ensures c in Live(rs) <==> Sub(m, c).Keys != {}
  {
    assert RefR(Meaning(Norm(rs[c]), v), short) == RefR(CanonR(Sub(m, c), short), short);
  }

  /** A branch whose children are canonical is canonical. */
  lemma BranchAssembled(t: Tree, m: Entries, v: Values, at: Path, short: Encoding)
    requires t.BranchT? && Shaped(t, at)
    requires ChildrenAnchored(ChildResults(t, v, at, short), m, v, short)
    ensures Meaning(Reduce(t, v, at, short), v) == CanonR(m, short)
  {
    var rs := ChildResults(t, v, at, short);
    forall c: Nibble ensures c in Live(rs) <==> Sub(m, c).Keys != {} {
      LiveBelow(rs, m, v, short, c);
    }
    BranchCases(t, v, at, short);
    if Live(rs) == {} {
      assert forall c: Nibble :: c !in Live(rs);
      AssembleNone(m, short);
    } else if k: Nibble :| OnlyLive(rs, k) {
      assert forall c: Nibble :: c != k ==> c !in Live(rs);
      NormFolds(k, rs[k]);
      AssembleOne(m, k, Norm(rs[k]), v, short);
    } else {
      AssembleLive(rs, m, v, short);
    }
  }

  lemma AssembleLive(rs: seq<NodeR>, m: Entries, v: Values, short: Encoding)
    requires |rs| == 16 && ChildrenAnchored(rs, m, v, short)
    requires Live(rs) != {} && !exists k: Nibble :: OnlyLive(rs, k)
    ensures RHash(Digest(BranchNode(seq(16, (k: Nibble) => SlotRef(rs[k], v, short)), None))) == CanonR(m, short)
  {
    var i, j := TwoLive(rs);
    LiveBelow(rs, m, v, short, i);
    LiveBelow(rs, m, v, short, j);
    var refs := seq(16, (k: Nibble) => SlotRef(rs[k], v, short));
    forall c: Nibble ensures refs[c] == RefR(CanonR(Sub(m, c), short), short) {
      assert Norm(rs[c]) == rs[c];
      assert refs[c] == RefR(Meaning(rs[c], v), short);
    }
    AssembleMany(m, i, j, refs, short);
  }

  /** One branch after the update, given its children. */
  lemma BranchUpdated(t: Tree, m: Entries, m': Entries, orig: Values, cur: Values, at: Path, short: Encoding)
    requires t.BranchT? && Shaped(t, at) && Foldable(t, orig, cur, at, short) && EmptyAlone(t, cur, at, short)
    requires ChildrenAnchored(ChildResults(t, orig, at, short), m, orig, short)
    requires [] !in m'
    requires forall c: Nibble ::
               ChildUpdated(t.children[c], ChildResults(t, cur, at, short)[c],
                            Sub(m, c), Sub(m', c), cur, short)
    ensures ChildrenAnchored(ChildResults(t, cur, at, short), m', cur, short)
  {
    var rs, rs' := ChildResults(t, orig, at, short), ChildResults(t, cur, at, short);
    forall c: Nibble
      ensures RefR(Meaning(Norm(rs'[c]), cur), short) == RefR(CanonR(Sub(m', c), short), short)
      ensures Norm(rs'[c]) != rs'[c] ==> OnlyLive(rs', c)
    {
      if !EmptyExtension(t.children[c]) { FoldsHaveNibbles(t.children[c], cur, at + [c], short); }
      ChildRefs(t.children[c], rs[c], rs'[c], Sub(m, c), Sub(m', c), orig, cur, short);
    }
    forall k: Nibble | OnlyLive(rs', k)
      ensures Meaning(Norm(rs'[k]), cur) == CanonR(Sub(m', k), short)
    {
      assert ChildUpdated(t.children[k], rs'[k], Sub(m, k), Sub(m', k), cur, short);
      if t.children[k].HashT? {
        assert OnlyLive(rs, k);
      }
    }
  }

  lemma LeafUpdated(t: Tree, m: Entries, m': Entries, orig: Values, cur: Values, at: Path, short: Encoding)
    requires (t.SlotT? || t.AccountT?) && Shaped(t, at)
    requires Matches(Meaning(Reduce(t, orig, at, short), orig), CanonR(m, short))
    requires Updated(m, m', t, at, cur, short)
    ensures Meaning(Reduce(t, cur, at, short), cur) == CanonR(m', short)
  {
    var s := HashedBranches(short);
    var key := t.key[|at|..];
    if LeafValue(t, orig, short).Some? {
      LeafInverse(m, key, LeafValue(t, orig, short).value, s);
    }
    forall k: Path ensures k in m' ==> k == key {
      assert UpdatedAt(m, m', t, at, cur, short, k);
    }
    assert UpdatedAt(m, m', t, at, cur, short, key);
    if LeafValue(t, cur, short).Some? {
      assert m'.Keys == {key};
      OneEntry(m', key, s);
    } else {
      assert m'.Keys == {};
    }
  }

  /** A branch, given its children's induction. */
  lemma BranchSound(t: Tree, m: Entries, m': Entries, orig: Values, cur: Values, at: Path, short: Encoding)
    requires t.BranchT? && Shaped(t, at) && Foldable(t, orig, cur, at, short) && EmptyAlone(t, cur, at, short)
    requires ChildrenAnchored(ChildResults(t, orig, at, short), m, orig, short)
    requires Updated(m, m', t, at, cur, short)
    requires forall c: Nibble ::
               ChildUpdated(t.children[c], ChildResults(t, cur, at, short)[c],
                            Sub(m, c), Sub(m', c), cur, short)
    ensures Meaning(Reduce(t, cur, at, short), cur) == CanonR(m', short)
  {
    var zero: Nibble := 0;
    UpdatedBelow(m, m', t, at, cur, short, zero);
    BranchUpdated(t, m, m', orig, cur, at, short);
    BranchAssembled(t, m', cur, at, short);
  }

  /** The child results of a canonical branch, as the induction takes them. */
  lemma ChildMatches(t: Tree, m: Entries, v: Values, at: Path, short: Encoding, c: Nibble)
    requires t.BranchT? && Shaped(t, at) && ChildrenAnchored(ChildResults(t, v, at, short), m, v, short)
    ensures var r := Norm(Reduce(t.children[c], v, at + [c], short));
            && Matches(Meaning(r, v), CanonR(Sub(m, c), short))
            && (EmptyExtension(t.children[c]) ==> Meaning(r, v) == CanonR(Sub(m, c), short))
  {
    var r := ChildResults(t, v, at, short)[c];
    SameRefMatches(Meaning(Norm(r), v), Canon(Sub(m, c), HashedBranches(short)), short);
  }

  /** A tree whose old reduction is the canonical trie of `m` has, after the update, the
      canonical trie of the updated map, if its empty extensions are still alone; only
      a subtree that is nothing but a hash may stay a bare hash. */
  lemma {:induction false} UpdateKeeps(t: Tree, m: Entries, m': Entries,
                                       orig: Values, cur: Values, at: Path, short: Encoding)
    requires Shaped(t, at) && Foldable(t, orig, cur, at, short) && EmptyAlone(t, cur, at, short)
    requires Matches(Meaning(Norm(Reduce(t, orig, at, short)), orig), CanonR(m, short))
    requires EmptyExtension(t) ==> Meaning(Norm(Reduce(t, orig, at, short)), orig) == CanonR(m, short)
    requires Updated(m, m', t, at, cur, short)
    ensures ChildUpdated(t, Reduce(t, cur, at, short), m, m', cur, short)
    decreases t
  {
    if t.BranchT? {
      FoldsHaveNibbles(t, orig, at, short);
      FoldsHaveNibbles(t, cur, at, short);
      BranchAnchors(t, m, orig, at, short);
      forall c: Nibble
        ensures ChildUpdated(t.children[c], ChildResults(t, cur, at, short)[c],
                             Sub(m, c), Sub(m', c), cur, short)
      {
        UpdatedBelow(m, m', t, at, cur, short, c);
        ChildMatches(t, m, orig, at, short, c);
        UpdateKeeps(t.children[c], Sub(m, c), Sub(m', c), orig, cur, at + [c], short);
      }
      BranchSound(t, m, m', orig, cur, at, short);
    } else if t.SlotT? || t.AccountT? {
      LeafUpdated(t, m, m', orig, cur, at, short);
    } else {
      NothingOpened(m, m', t, at, cur, short);
    }
  }

  /** In a tree whose reduction is canonical every empty extension is alone. */
  lemma {:induction false} AloneForced(t: Tree, m: Entries, v: Values, at: Path, short: Encoding)
    requires Shaped(t, at) && Matches(Meaning(Norm(Reduce(t, v, at, short)), v), CanonR(m, short))
    ensures EmptyAlone(t, v, at, short)
    decreases t
  {
    if t.BranchT? {
      FoldsHaveNibbles(t, v, at, short);
      BranchAnchors(t, m, v, at, short);
      var rs := ChildResults(t, v, at, short);
      forall c: Nibble
        ensures EmptyAlone(t.children[c], v, at + [c], short)
        ensures EmptyExtension(t.children[c]) ==> OnlyLive(rs, c)
      {
        ChildMatches(t, m, v, at, short, c);
        AloneForced(t.children[c], Sub(m, c), v, at + [c], short);
        assert EmptyExtension(t.children[c]) ==> Norm(rs[c]) != rs[c];
      }
    }
  }

  /** The engine's soundness, exactly: from a canonical old reduction the update is
      right if and only if every empty extension is still alone. */
  lemma UpdateSound(t: Tree, m: Entries, m': Entries, orig: Values, cur: Values, at: Path, short: Encoding)
    requires Shaped(t, at) && Foldable(t, orig, cur, at, short)
    requires Matches(Meaning(Reduce(t, orig, at, short), orig), CanonR(m, short))
    requires Updated(m, m', t, at, cur, short)
    ensures ChildUpdated(t, Reduce(t, cur, at, short), m, m', cur, short) <==> EmptyAlone(t, cur, at, short)
  {
    NeverEmpty(Reduce(t, orig, at, short), orig, m, short);
    if EmptyAlone(t, cur, at, short) {
      UpdateKeeps(t, m, m', orig, cur, at, short);
    }
    if Meaning(Norm(Reduce(t, cur, at, short)), cur) == CanonR(m', short) {
      AloneForced(t, m', cur, at, short);
    }
  }

  // ----- roots -------------------------------------------------------------------------

  ghost function TrieRoot(m: Entries, short: Encoding): Hash {
    RootR(CanonR(m, short))
  }

  /** The same root means the same canonical trie, or a witness that is a bare hash. */
  lemma RootMatches(t: Tree, m: Entries, v: Values, at: Path, short: Encoding)
    requires Shaped(t, at)
    requires Finalize(Reduce(t, v, at, short), v) == TrieRoot(m, short)
    ensures t.HashT? || Matches(Meaning(Reduce(t, v, at, short), v), CanonR(m, short))
  {
    var r := Reduce(t, v, at, short);
    if t.BranchT? {
      var rs := ChildResults(t, v, at, short);
      BranchCases(t, v, at, short);
      if Live(rs) != {} && !exists k: Nibble :: OnlyLive(rs, k) {
        var i, j := TwoLive(rs);
      }
    }
  }

  /** One trie: if the old roots agree, the new ones do if and only if every empty
      extension is still alone. */
  lemma RootSound(t: Tree, m: Entries, m': Entries, orig: Values, cur: Values, short: Encoding)
    requires Shaped(t, []) && Foldable(t, orig, cur, [], short)
    requires Finalize(Reduce(t, orig, [], short), orig) == TrieRoot(m, short)
    requires Updated(m, m', t, [], cur, short)
    ensures Finalize(Reduce(t, cur, [], short), cur) == TrieRoot(m', short) <==> EmptyAlone(t, cur, [], short)
  {
    if t.HashT? {
      NothingOpened(m, m', t, [], cur, short);
    } else {
      RootMatches(t, m, orig, [], short);
      NeverEmpty(Reduce(t, orig, [], short), orig, m, short);
      FoldsHaveNibbles(t, cur, [], short);
      UpdateSound(t, m, m', orig, cur, [], short);
      if Finalize(Reduce(t, cur, [], short), cur) == TrieRoot(m', short) {
        RootMatches(t, m', cur, [], short);
        AloneForced(t, m', cur, [], short);
      }
    }
  }

  /** The true root fixes the block-start value of every opened leaf. */
  lemma {:induction false} LookupAnchored(t: Tree, m: Entries, v: Values, at: Path, k: Path, short: Encoding)
    requires Shaped(t, at)
    requires Matches(Meaning(Reduce(t, v, at, short), v), CanonR(m, short))
    requires Lookup(t, k, at).Some?
    ensures LeafValue(Lookup(t, k, at).value, v, short) == Get(m, k)
    decreases t
  {
    var s := HashedBranches(short);
    if t.BranchT? {
      var c := k[0];
      BranchAnchors(t, m, v, at, short);
      ChildMatches(t, m, v, at, short, c);
      FoldsHaveNibbles(t.children[c], v, at + [c], short);
      LookupAnchored(t.children[c], Sub(m, c), v, at + [c], k[1..], short);
      assert [c] + k[1..] == k;
      assert k[1..] in Sub(m, c) <==> k in m;
    } else if LeafValue(t, v, short).Some? {
      LeafInverse(m, k, LeafValue(t, v, short).value, s);
    }
  }

  // ----- the two-level state ---------------------------------------------------------------

  datatype AccountState = AccountState(account: Account, storage: map<Path, int>)

  type World = map<Path, AccountState>

  ghost function SlotEntries(s: map<Path, int>): Entries {
    map k | k in s :: SlotValue(s[k])
  }

  ghost function StorageRoot(s: map<Path, int>, short: Encoding): Hash {
    TrieRoot(SlotEntries(s), short)
  }

  ghost function AccountEntries(w: World, short: Encoding): Entries {
    map k | k in w :: AccountValue(w[k].account.nonce, w[k].account.balance, w[k].account.codeHash,
                                   StorageRoot(w[k].storage, short))
  }

  ghost function StateRootOf(w: World, short: Encoding): Hash {
    TrieRoot(AccountEntries(w, short), short)
  }

  predicate StorageTree(t: Tree) {
    match t
    case BranchT(ch) => forall k :: 0 <= k < |ch| ==> StorageTree(ch[k])
    case AccountT(_, _, _) => false
    case _ => true
  }

  predicate StateTree(t: Tree) {
    match t
    case BranchT(ch) => forall k :: 0 <= k < |ch| ==> StateTree(ch[k])
    case AccountT(_, _, storage) => StorageTree(storage)
    case SlotT(_, _) => false
    case _ => true
  }

  /** An account absent at block start had no storage. */
  predicate StorageOwned(t: Tree, v: Values, at: Path, short: Encoding)
    requires Shaped(t, at)
  {
    match t
    case BranchT(ch) => forall k: Nibble :: StorageOwned(ch[k], v, at + [k], short)
    case AccountT(_, i, storage) =>
      AccountAt(v, i) == EMPTY_ACCOUNT ==> Finalize(Reduce(storage, v, [], short), v) == EmptyTrieRoot
    case _ => true
  }

  function StorageOf(w: World, k: Path): map<Path, int> {
    if k in w then w[k].storage else map[]
  }

  ghost predicate StorageUpdated(s: map<Path, int>, s': map<Path, int>, t: Tree, v: Values)
    requires Shaped(t, [])
  {
    forall k: Path :: SlotUpdated(s, s', t, v, k)
  }

  ghost predicate SlotUpdated(s: map<Path, int>, s': map<Path, int>, t: Tree, v: Values, k: Path)
    requires Shaped(t, [])
  {
    match Lookup(t, k, [])
    case Some(SlotT(_, i)) => if SlotAt(v, i) == 0 then k !in s' else k in s' && s'[k] == SlotAt(v, i)
    case _ => if k in s then k in s' && s'[k] == s[k] else k !in s'
  }

  /** `w'` is `w` with every opened account set to its current fields and slots; an
      account whose current fields are empty is gone. */
  ghost predicate WorldUpdated(w: World, w': World, t: Tree, v: Values)
    requires Shaped(t, [])
  {
    forall k: Path :: AccountUpdated(w, w', t, v, k)
  }

  ghost predicate AccountUpdated(w: World, w': World, t: Tree, v: Values, k: Path)
    requires Shaped(t, [])
  {
    match Lookup(t, k, [])
    case Some(AccountT(_, i, storage)) =>
      if AccountAt(v, i) == EMPTY_ACCOUNT then k !in w'
      else && k in w' && w'[k].account == AccountAt(v, i)
           && StorageUpdated(StorageOf(w, k), w'[k].storage, storage, v)
    case _ => if k in w then k in w' && w'[k] == w[k] else k !in w'
  }

  /** What the tree's own conditions say about one opened account. */
  lemma {:induction false} OpenedAccount(t: Tree, orig: Values, cur: Values, at: Path, k: Path, short: Encoding)
    requires Shaped(t, at) && StateTree(t)
    requires Foldable(t, orig, cur, at, short) && StorageOwned(t, orig, at, short)
    requires Lookup(t, k, at).Some?
    ensures var leaf := Lookup(t, k, at).value;
            && leaf.AccountT? && Shaped(leaf.storage, []) && StorageTree(leaf.storage)
            && Foldable(leaf.storage, orig, cur, [], short)
            && (AccountAt(orig, leaf.idx) == EMPTY_ACCOUNT ==>
                  Finalize(Reduce(leaf.storage, orig, [], short), orig) == EmptyTrieRoot)
            && (StoragesAlone(t, cur, at, short) && AccountAt(cur, leaf.idx) != EMPTY_ACCOUNT ==>
                  EmptyAlone(leaf.storage, cur, [], short))
    decreases t
  {
    if t.BranchT? {
      OpenedAccount(t.children[k[0]], orig, cur, at + [k[0]], k[1..], short);
    }
  }

  lemma {:induction false} OpenedSlot(t: Tree, at: Path, k: Path)
    requires Shaped(t, at) && StorageTree(t) && Lookup(t, k, at).Some?
    ensures Lookup(t, k, at).value.SlotT?
    decreases t
  {
    if t.BranchT? {
      OpenedSlot(t.children[k[0]], at + [k[0]], k[1..]);
    }
  }

  lemma StorageSound(t: Tree, s: map<Path, int>, s': map<Path, int>, orig: Values, cur: Values, short: Encoding)
    requires Shaped(t, []) && StorageTree(t) && Foldable(t, orig, cur, [], short) && EmptyAlone(t, cur, [], short)
    requires Finalize(Reduce(t, orig, [], short), orig) == StorageRoot(s, short)
    requires StorageUpdated(s, s', t, cur)
    ensures Finalize(Reduce(t, cur, [], short), cur) == StorageRoot(s', short)
  {
    var m, m' := SlotEntries(s), SlotEntries(s');
    forall k: Path ensures UpdatedAt(m, m', t, [], cur, short, k) {
      assert SlotUpdated(s, s', t, cur, k);
      if Lookup(t, k, []).Some? {
        OpenedSlot(t, [], k);
      }
    }
    RootSound(t, m, m', orig, cur, short);
  }

  /** An opened account's new leaf value is the new state's. */
  lemma AccountSound(t: Tree, w: World, w': World, orig: Values, cur: Values, k: Path, short: Encoding)
    requires Shaped(t, []) && StateTree(t) && StoragesAlone(t, cur, [], short)
    requires Foldable(t, orig, cur, [], short) && StorageOwned(t, orig, [], short)
    requires Finalize(Reduce(t, orig, [], short), orig) == StateRootOf(w, short)
    requires AccountUpdated(w, w', t, cur, k)
    requires Lookup(t, k, []).Some?
    ensures Get(AccountEntries(w', short), k) == LeafValue(Lookup(t, k, []).value, cur, short)
  {
    var leaf := Lookup(t, k, []).value;
    OpenedAccount(t, orig, cur, [], k, short);
    if AccountAt(cur, leaf.idx) != EMPTY_ACCOUNT {
      RootMatches(t, AccountEntries(w, short), orig, [], short);
      LookupAnchored(t, AccountEntries(w, short), orig, [], k, short);
      if k !in w {
        assert SlotEntries(map[]).Keys == {};
      }
      StorageSound(leaf.storage, StorageOf(w, k), w'[k].storage, orig, cur, short);
    }
  }

  /** The opened accounts of the updated state, as entries. */
  lemma WorldEntries(t: Tree, w: World, w': World, orig: Values, cur: Values, short: Encoding)
    requires Shaped(t, []) && StateTree(t) && StoragesAlone(t, cur, [], short)
    requires Foldable(t, orig, cur, [], short) && StorageOwned(t, orig, [], short)
    requires Finalize(Reduce(t, orig, [], short), orig) == StateRootOf(w, short)
    requires WorldUpdated(w, w', t, cur)
    ensures Updated(AccountEntries(w, short), AccountEntries(w', short), t, [], cur, short)
  {
    var m, m' := AccountEntries(w, short), AccountEntries(w', short);
    forall k: Path ensures UpdatedAt(m, m', t, [], cur, short, k) {
      assert AccountUpdated(w, w', t, cur, k);
      if Lookup(t, k, []).Some? {
        OpenedAccount(t, orig, cur, [], k, short);
        AccountSound(t, w, w', orig, cur, k, short);
      }
    }
  }

  /** Every storage root in the map is that of some storage. */
  ghost predicate RealStorages(m: Entries, short: Encoding) {
    forall k :: k in m && m[k].AccountValue? ==> IsStorageRoot(m[k].storageRoot, short)
  }

  ghost predicate IsStorageRoot(h: Hash, short: Encoding) {
    exists s :: h == StorageRoot(s, short)
  }

  /** A canonical state trie with real storage roots has no misplaced empty extension in
      the storage of an account that exists. */
  lemma {:induction false} StoragesForced(t: Tree, m: Entries, v: Values, at: Path, short: Encoding)
    requires Shaped(t, at) && RealStorages(m, short)
    requires Matches(Meaning(Norm(Reduce(t, v, at, short)), v), CanonR(m, short))
    ensures StoragesAlone(t, v, at, short)
    decreases t
  {
    if t.BranchT? {
      FoldsHaveNibbles(t, v, at, short);
      BranchAnchors(t, m, v, at, short);
      forall c: Nibble ensures StoragesAlone(t.children[c], v, at + [c], short) {
        ChildMatches(t, m, v, at, short, c);
        StoragesForced(t.children[c], Sub(m, c), v, at + [c], short);
      }
    } else if t.AccountT? && AccountAt(v, t.idx) != EMPTY_ACCOUNT {
      LeafInverse(m, t.key[|at|..], LeafValue(t, v, short).value, HashedBranches(short));
      assert IsStorageRoot(m[t.key[|at|..]].storageRoot, short);
      StorageForced(t.storage, v, short);
    }
  }

  lemma StorageForced(t: Tree, v: Values, short: Encoding)
    requires Shaped(t, []) && IsStorageRoot(Finalize(Reduce(t, v, [], short), v), short)
    ensures EmptyAlone(t, v, [], short)
  {
    var s :| Finalize(Reduce(t, v, [], short), v) == StorageRoot(s, short);
    RootMatches(t, SlotEntries(s), v, [], short);
    if !t.HashT? {
      NeverEmpty(Reduce(t, v, [], short), v, SlotEntries(s), short);
      AloneForced(t, SlotEntries(s), v, [], short);
    }
  }

  /** Stateless execution, exactly: from the true pre-state root to the true post-state
      root, for every witness and every change of the opened leaves, if and only if every
      empty extension in the state trie and in the storage of every account that still
      exists is still alone. */
  lemma StatelessRootSound(t: Tree, w: World, w': World, orig: Values, cur: Values, short: Encoding)
    requires Shaped(t, []) && StateTree(t)
    requires Foldable(t, orig, cur, [], short) && StorageOwned(t, orig, [], short)
    requires Finalize(Reduce(t, orig, [], short), orig) == StateRootOf(w, short)
    requires WorldUpdated(w, w', t, cur)
    ensures Finalize(Reduce(t, cur, [], short), cur) == StateRootOf(w', short) <==>
            EmptyAlone(t, cur, [], short) && StoragesAlone(t, cur, [], short)
  {
    var m, m' := AccountEntries(w, short), AccountEntries(w', short);
    if EmptyAlone(t, cur, [], short) && StoragesAlone(t, cur, [], short) {
      WorldEntries(t, w, w', orig, cur, short);
      RootSound(t, m, m', orig, cur, short);
    }
    if Finalize(Reduce(t, cur, [], short), cur) == StateRootOf(w', short) {
      RootMatches(t, m', cur, [], short);
      if !t.HashT? {
        NeverEmpty(Reduce(t, cur, [], short), cur, m', short);
        AloneForced(t, m', cur, [], short);
        RealEntries(w', short);
        StoragesForced(t, m', cur, [], short);
      }
    }
  }

  lemma RealEntries(w: World, short: Encoding)
    ensures RealStorages(AccountEntries(w, short), short)
  {
    var m := AccountEntries(w, short);
    forall k | k in m ensures IsStorageRoot(m[k].storageRoot, short) {
      assert m[k].storageRoot == StorageRoot(w[k].storage, short);
    }
  }

  // ----- a fully opened tree ------------------------------------------------------------------

  /** The witness opens every subtree. */
  predicate Revealed(t: Tree) {
    match t
    case BranchT(ch) => forall k :: 0 <= k < |ch| ==> Revealed(ch[k])
    case AccountT(_, _, storage) => Revealed(storage)
    case HashT(_) => false
    case ExtT(_, _) => false
    case PhantomT(_, _) => false
    case _ => true
  }

  const NO_VALUES := Values([], [])

  lemma {:induction false} AllAbsent(t: Tree, at: Path, short: Encoding)
    requires Shaped(t, at) && Revealed(t)
    ensures Reduce(t, NO_VALUES, at, short) == EmptyR
    decreases t
  {
    if t.BranchT? {
      var rs := ChildResults(t, NO_VALUES, at, short);
      forall k: Nibble ensures rs[k] == EmptyR {
        AllAbsent(t.children[k], at + [k], short);
      }
      assert Live(rs) == {};
      BranchCases(t, NO_VALUES, at, short);
    }
  }

  lemma {:induction false} RevealedFolds(t: Tree, orig: Values, cur: Values, at: Path, short: Encoding)
    requires Shaped(t, at) && Revealed(t)
    ensures RealExtensions(t) && Foldable(t, orig, cur, at, short)
    decreases t
  {
    if t.BranchT? {
      forall k: Nibble ensures RealExtensions(t.children[k]) && Foldable(t.children[k], orig, cur, at + [k], short) {
        RevealedFolds(t.children[k], orig, cur, at + [k], short);
      }
    } else if t.AccountT? {
      RevealedFolds(t.storage, orig, cur, [], short);
    }
  }

  /** Folding a fully opened tree bottom-up, over present and absent leaves, gives
      the canonical trie of the present ones, whatever the tree's shape. */
  lemma RevealedIsCanonical(t: Tree, m: Entries, v: Values, at: Path, short: Encoding)
    requires Shaped(t, at) && Revealed(t)
    requires Updated(map[], m, t, at, v, short)
    ensures Meaning(Reduce(t, v, at, short), v) == CanonR(m, short)
  {
    AllAbsent(t, at, short);
    RevealedFolds(t, NO_VALUES, v, at, short);
    RealAlone(t, v, at, short);
    UpdateSound(t, map[], m, NO_VALUES, v, at, short);
    FoldsHaveNibbles(t, v, at, short);
  }
}
