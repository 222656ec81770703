/** The conditions of the build pass on keys, node by node along the paths of the
    witness. */
module WitnessKeys {
  import opened Basics
  import opened TrieTerms
  import opened TrieReduce
  import opened TrieSoundness
  import opened TrieWitness

  /** The node that the nibbles `p` lead to, if the witness opens it. */
  function Descend(w: Wit, p: Path): Option<Wit>
    decreases |p|
  {
    if p == [] then Some(w)
    else if w.BranchOp? && p[0] < |w.slots| && w.slots[p[0]].NodeChild? then Descend(w.slots[p[0]].node, p[1..])
    else None
  }

  /** ... and from the account leaf there, `q` in its storage trie. */
  function DescendStorage(w: Wit, p: Path, q: Path): Option<Wit> {
    match Descend(w, p)
    case Some(AccountLeafOp(_, _, _, storage)) => Descend(storage, q)
    case _ => None
  }

  /** Every account leaf sits, with 64 nibbles, at the hash of its address, and every slot
      leaf at the hash of its position. */
  ghost predicate KeysBound(w: Wit, hash: KeyHash) {
    && (forall p :: Descend(w, p).Some? && Descend(w, p).value.AccountLeafOp? ==>
          var leaf := Descend(w, p).value; |p + leaf.suffix| == 64 && hash(leaf.address) == p + leaf.suffix)
    && (forall p, q :: DescendStorage(w, p, q).Some? && DescendStorage(w, p, q).value.StorageLeafOp? ==>
          var leaf := DescendStorage(w, p, q).value; |q + leaf.suffix| == 64 && hash(leaf.position) == q + leaf.suffix)
  }

  /** No branch lies 64 nibbles deep. */
  ghost predicate BranchesShallow(w: Wit) {
    && (forall p :: Descend(w, p).Some? && Descend(w, p).value.BranchOp? ==> |p| < 64)
    && (forall p, q :: DescendStorage(w, p, q).Some? && DescendStorage(w, p, q).value.BranchOp? ==> |q| < 64)
  }

  /** An account that does not exist has an empty storage trie. */
  ghost predicate NoOrphanStorage(w: Wit) {
    forall p :: Descend(w, p).Some? && Descend(w, p).value.AccountLeafOp? ==>
      var leaf := Descend(w, p).value; leaf.account == EMPTY_ACCOUNT ==> EmptyStorage(leaf.storage)
  }

  /** The condition at one node. */
  predicate NodeLawful(n: Wit, at: Path, hash: KeyHash) {
    match n
    case BranchOp(_) => |at| < 64
    case AccountLeafOp(suffix, address, account, storage) =>
      && |at + suffix| == 64 && hash(address) == at + suffix && Lawful(storage, [], hash)
      && (account == EMPTY_ACCOUNT ==> EmptyStorage(storage))
    case StorageLeafOp(suffix, position, _) => |at + suffix| == 64 && hash(position) == at + suffix
    case _ => true
  }

  ghost predicate LawfulAlong(w: Wit, walked: Path, hash: KeyHash) {
    forall p :: Descend(w, p).Some? ==> NodeLawful(Descend(w, p).value, walked + p, hash)
  }

  lemma {:induction false} LawfulPaths(w: Wit, kind: Kind, walked: Path, hash: KeyHash)
    requires WellFormed(w, kind)
    ensures Lawful(w, walked, hash) <==> LawfulAlong(w, walked, hash)
    decreases w
  {
    assert Descend(w, []) == Some(w) && walked + [] == walked;
    if w.BranchOp? {
      forall k: Nibble | w.slots[k].NodeChild?
        ensures Lawful(w.slots[k].node, walked + [k], hash) <==> LawfulAlong(w.slots[k].node, walked + [k], hash)
      {
        LawfulPaths(w.slots[k].node, kind, walked + [k], hash);
      }
      if Lawful(w, walked, hash) {
        forall p | Descend(w, p).Some? ensures NodeLawful(Descend(w, p).value, walked + p, hash) {
          if p != [] {
            assert LawfulAlong(w.slots[p[0]].node, walked + [p[0]], hash);
            assert walked + [p[0]] + p[1..] == walked + p;
          }
        }
      }
      if LawfulAlong(w, walked, hash) {
        forall k: Nibble | w.slots[k].NodeChild? ensures LawfulAlong(w.slots[k].node, walked + [k], hash) {
          AlongSlot(w, k, walked, hash);
        }
      }
    } else {
      assert forall p :: p != [] ==> Descend(w, p).None?;
    }
  }

  lemma BelowSlot(w: Wit, k: Nibble)
    requires w.BranchOp? && k < |w.slots| && w.slots[k].NodeChild?
    ensures forall p :: Descend(w.slots[k].node, p) == Descend(w, [k] + p)
  {
    forall p ensures Descend(w.slots[k].node, p) == Descend(w, [k] + p) {
      assert ([k] + p)[1..] == p;
    }
  }

  lemma AlongSlot(w: Wit, k: Nibble, walked: Path, hash: KeyHash)
    requires w.BranchOp? && k < |w.slots| && w.slots[k].NodeChild? && LawfulAlong(w, walked, hash)
    ensures LawfulAlong(w.slots[k].node, walked + [k], hash)
  {
    BelowSlot(w, k);
    forall p | Descend(w.slots[k].node, p).Some?
      ensures NodeLawful(Descend(w.slots[k].node, p).value, walked + [k] + p, hash)
    {
      assert Descend(w, [k] + p).Some?;
      assert walked + ([k] + p) == walked + [k] + p;
    }
  }

  /** Below a well-formed node every node is well-formed. */
  lemma {:induction false} WellFormedBelow(w: Wit, kind: Kind, p: Path)
    requires WellFormed(w, kind) && Descend(w, p).Some?
    ensures WellFormed(Descend(w, p).value, kind)
    decreases |p|
  {
    if p != [] { WellFormedBelow(w.slots[p[0]].node, kind, p[1..]); }
  }

  lemma StorageAlong(w: Wit, hash: KeyHash)
    requires WellFormed(w, Storage)
    ensures Lawful(w, [], hash) <==> LawfulAlong(w, [], hash)
  {
    LawfulPaths(w, Storage, [], hash);
  }

  /** What the build pass checks besides the node count, as three statements about the
      witness. */
  lemma LawfulExactly(w: Wit, hash: KeyHash)
    requires WellFormed(w, State)
    ensures Lawful(w, [], hash) <==> KeysBound(w, hash) && BranchesShallow(w) && NoOrphanStorage(w)
  {
    LawfulPaths(w, State, [], hash);
    if LawfulAlong(w, [], hash) { AlongBound(w, hash); }
    if KeysBound(w, hash) && BranchesShallow(w) && NoOrphanStorage(w) {
      forall p | Descend(w, p).Some? ensures NodeLawful(Descend(w, p).value, [] + p, hash) {
        assert [] + p == p;
        BoundNode(w, p, hash);
      }
    }
  }

  lemma AlongBound(w: Wit, hash: KeyHash)
    requires WellFormed(w, State) && LawfulAlong(w, [], hash)
    ensures KeysBound(w, hash) && BranchesShallow(w) && NoOrphanStorage(w)
  {
    forall p | Descend(w, p).Some? ensures NodeLawful(Descend(w, p).value, p, hash) { assert [] + p == p; }
    forall p, q | DescendStorage(w, p, q).Some? ensures NodeLawful(DescendStorage(w, p, q).value, q, hash) {
      var leaf := Descend(w, p).value;
      WellFormedBelow(w, State, p);
      StorageAlong(leaf.storage, hash);
      assert NodeLawful(leaf, p, hash);
      assert [] + q == q;
    }
  }

  lemma BoundNode(w: Wit, p: Path, hash: KeyHash)
    requires WellFormed(w, State) && KeysBound(w, hash) && BranchesShallow(w) && NoOrphanStorage(w)
    requires Descend(w, p).Some?
    ensures NodeLawful(Descend(w, p).value, p, hash)
  {
    var n := Descend(w, p).value;
    WellFormedBelow(w, State, p);
    if n.AccountLeafOp? {
      forall q | Descend(n.storage, q).Some? ensures NodeLawful(Descend(n.storage, q).value, [] + q, hash) {
        assert [] + q == q && DescendStorage(w, p, q) == Descend(n.storage, q);
        WellFormedBelow(n.storage, Storage, q);
      }
      StorageAlong(n.storage, hash);
    }
  }
}
