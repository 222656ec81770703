/** An extension without nibbles, which the reader of the witness does not refuse: a true
    old root from which the engine computes a wrong new one. */
module EmptyExtensions {
  import opened Basics
  import opened TrieTerms
  import opened TrieReduce
  import opened Canonical
  import opened TrieSoundness
  import opened TrieWitness

  /** The branch with these two children, at nibbles 0 and 1. */
  function Pair(a: Tree, b: Tree): (t: Tree)
    ensures t.BranchT? && |t.children| == 16 && t.children[0] == a && t.children[1] == b
    ensures forall k: Nibble :: k >= 2 ==> t.children[k] == EmptyT
  {
    BranchT([a, b] + seq(14, _ => EmptyT))
  }

  /** One absent leaf of either kind, beside the empty extension. */
  ghost predicate Appears(leaf: Tree, orig: Values, cur: Values, short: Encoding) {
    && (leaf.SlotT? || leaf.AccountT?) && Shaped(leaf, [1])
    && GuardPasses(leaf, orig, cur, [1], short)
    && LeafValue(leaf, orig, short).None? && LeafValue(leaf, cur, short).Some?
  }

  lemma PairShaped(leaf: Tree, h: Hash)
    requires Shaped(leaf, [1])
    ensures Shaped(Pair(ExtT([], h), leaf), [])
  {
    var t := Pair(ExtT([], h), leaf);
    forall k: Nibble ensures Shaped(t.children[k], [] + [k]) {
      assert [] + [k] == [k];
    }
  }

  lemma PairResults(leaf: Tree, h: Hash, v: Values, short: Encoding)
    requires (leaf.SlotT? || leaf.AccountT?) && Shaped(leaf, [1]) && Shaped(Pair(ExtT([], h), leaf), [])
    ensures var rs := ChildResults(Pair(ExtT([], h), leaf), v, [], short);
            && rs[0] == ExtR([], h)
            && (1 in Live(rs) <==> LeafValue(leaf, v, short).Some?)
            && Live(rs) == if LeafValue(leaf, v, short).Some? then {0, 1} else {0}
  {
    var t := Pair(ExtT([], h), leaf);
    var rs := ChildResults(t, v, [], short);
    assert [] + [1] == [1];
    forall k: Nibble ensures k >= 2 ==> rs[k] == EmptyR {
      assert k >= 2 ==> t.children[k] == EmptyT;
    }
  }

  /** The guard only looks at subtrees given by hash. */
  lemma PairGuard(leaf: Tree, h: Hash, orig: Values, cur: Values, short: Encoding)
    requires Appears(leaf, orig, cur, short) && Shaped(Pair(ExtT([], h), leaf), [])
    ensures GuardPasses(Pair(ExtT([], h), leaf), orig, cur, [], short)
  {
    var t := Pair(ExtT([], h), leaf);
    forall k: Nibble
      ensures GuardPasses(t.children[k], orig, cur, [] + [k], short) && !t.children[k].HashT?
    {
      assert [] + [k] == [k];
      assert k >= 2 ==> t.children[k] == EmptyT;
    }
  }

  /** Below a shared nibble the empty extension over a branch's hash has the true root. */
  lemma PairOldRoot(leaf: Tree, b: Node, m: Entries, v: Values, short: Encoding)
    requires (leaf.SlotT? || leaf.AccountT?) && Shaped(leaf, [1]) && LeafValue(leaf, v, short).None?
    requires Shaped(Pair(ExtT([], Digest(b)), leaf), [])
    requires Under(m, 0) && b.BranchNode? && Canon(Sub(m, 0), HashedBranches(short)) == Some(b)
    ensures Finalize(Reduce(Pair(ExtT([], Digest(b)), leaf), v, [], short), v) == TrieRoot(m, short)
  {
    var t := Pair(ExtT([], Digest(b)), leaf);
    var zero: Nibble := 0;
    PairResults(leaf, Digest(b), v, short);
    assert OnlyLive(ChildResults(t, v, [], short), zero);
    BranchCases(t, v, [], short);
    assert [zero] + [] == [zero];
    CanonUnder(m, zero, HashedBranches(short));
  }

  /** The guest halts nowhere, starts from the true root and ends with a wrong one:
      for every map below nibble 0, every leaf that appears at nibble 1. */
  lemma EmptyExtensionMisleads(leaf: Tree, b: Node, m: Entries, m': Entries, orig: Values, cur: Values, short: Encoding)
    requires Appears(leaf, orig, cur, short)
    requires Under(m, 0) && b.BranchNode? && Canon(Sub(m, 0), HashedBranches(short)) == Some(b)
    requires var t := Pair(ExtT([], Digest(b)), leaf); Shaped(t, []) && Updated(m, m', t, [], cur, short)
    ensures var t := Pair(ExtT([], Digest(b)), leaf);
            && GuardPasses(t, orig, cur, [], short)
            && Finalize(Reduce(t, orig, [], short), orig) == TrieRoot(m, short)
            && Finalize(Reduce(t, cur, [], short), cur) != TrieRoot(m', short)
  {
    var t := Pair(ExtT([], Digest(b)), leaf);
    PairGuard(leaf, Digest(b), orig, cur, short);
    GuardFolds(t, orig, cur, [], short);
    PairOldRoot(leaf, b, m, orig, short);
    PairResults(leaf, Digest(b), cur, short);
    var zero: Nibble := 0;
    assert EmptyExtension(t.children[zero]) && !OnlyLive(ChildResults(t, cur, [], short), zero) by {
      assert 1 in Live(ChildResults(t, cur, [], short));
    }
    RootSound(t, m, m', orig, cur, short);
  }

  // ----- a concrete storage trie -----------------------------------------------------------

  const ZEROS: Path := seq(62, _ => 0)

  /** Two slots below nibble 0, and a third one that is written at nibble 1. */
  const BEFORE: Entries := map[[0, 0] + ZEROS := SlotValue(1), [0, 1] + ZEROS := SlotValue(1)]
  const WRITTEN: Path := [1, 0] + ZEROS
  const AFTER: Entries := BEFORE[WRITTEN := SlotValue(7)]

  /** The hash-only part, the empty extension over it, and the opened absent slot. */
  function Deceit(h: Hash): Wit {
    BranchOp([NodeChild(ExtensionHashOp([], h)), NodeChild(StorageLeafOp(WRITTEN[1..], 0, 0))] + seq(14, _ => NoChild))
  }

  lemma BeforeUnder()
    ensures Under(BEFORE, 0)
  {
    forall k | k in BEFORE ensures [0] <= k {
      assert k[0] == 0;
    }
  }

  lemma AfterUpdates(h: Hash, short: Encoding)
    requires Shaped(Pair(ExtT([], h), SlotT(WRITTEN, 0)), [])
    ensures Updated(BEFORE, AFTER, Pair(ExtT([], h), SlotT(WRITTEN, 0)), [], Values([], [7]), short)
  {
    var t, v := Pair(ExtT([], h), SlotT(WRITTEN, 0)), Values([], [7]);
    var zero: Nibble, one: Nibble := 0, 1;
    assert ([0, 0] + ZEROS)[0] == zero && ([0, 1] + ZEROS)[0] == zero && WRITTEN[0] == one;
    forall k: Path ensures UpdatedAt(BEFORE, AFTER, t, [], v, short, k) {
      if k != [] && k[0] == 1 {
        assert [one] + k[1..] == k && [one] + WRITTEN[1..] == WRITTEN;
        assert ([] + [one]) == [one];
        assert k[1..] == WRITTEN[1..] <==> k == WRITTEN;
      } else if k != [] && k[0] >= 2 {
        assert t.children[k[0]] == EmptyT;
      }
    }
  }

  /** The build pass accepts the witness, its old root is the true one, the guard never
      fires, and the new root is not that of the trie with the slot written. */
  lemma WrongRootAccepted(hash: KeyHash, short: Encoding) returns (h: Hash)
    requires hash(0) == WRITTEN
    ensures WellFormed(Deceit(h), Storage) && Lawful(Deceit(h), [], hash)
    ensures var t := Pair(ExtT([], h), SlotT(WRITTEN, 0));
            && Shaped(t, [])
            && GuardPasses(t, Values([], [0]), Values([], [7]), [], short)
            && Finalize(Reduce(t, Values([], [0]), [], short), Values([], [0])) == TrieRoot(BEFORE, short)
            && Finalize(Reduce(t, Values([], [7]), [], short), Values([], [7])) != TrieRoot(AFTER, short)
  {
    BeforeUnder();
    PartAtSecond(BEFORE, 0, 0, 1, ZEROS, HashedBranches(short));
    var b := Canon(Sub(BEFORE, 0), HashedBranches(short)).value;
    h := Digest(b);
    DeceitLawful(h, hash);
    var leaf, orig, cur := SlotT(WRITTEN, 0), Values([], [0]), Values([], [7]);
    assert Appears(leaf, orig, cur, short);
    PairShaped(leaf, h);
    AfterUpdates(h, short);
    EmptyExtensionMisleads(leaf, b, BEFORE, AFTER, orig, cur, short);
  }

  lemma DeceitLawful(h: Hash, hash: KeyHash)
    requires hash(0) == WRITTEN
    ensures WellFormed(Deceit(h), Storage) && Lawful(Deceit(h), [], hash)
  {
    var slots := Deceit(h).slots;
    forall k: Nibble | slots[k].NodeChild?
      ensures WellFormed(slots[k].node, Storage) && Lawful(slots[k].node, [] + [k], hash)
    {
      assert k < 2;
      if k == 1 { assert [] + [k] + WRITTEN[1..] == WRITTEN; }
    }
  }
}
