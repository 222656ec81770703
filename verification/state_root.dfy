/** The two-pass state-root engine: build the node arrays from the witness, caching
    every node's result for the block-start values, then re-evaluate them against
    the current values, reusing what did not change. */
module StateRootEngine {
  import opened Basics
  import opened TrieTerms
  import opened TrieReduce
  import opened TrieSoundness
  import opened TrieWitness
  import opened StateStore

  datatype ValueSet = Original | Current

  /** The tree `t`, at path `at`, is the one the witness spells, with one table row
      per leaf. */
  predicate Spells(t: Tree, w: Wit, at: Path, owner: int, s: Store)
    decreases w
  {
    match w
    case EmptyOp => t == EmptyT
    case HashOp(h) => t == HashT(h)
    case ExtensionHashOp(p, h) => t == ExtT(p, h)
    case PhantomLeafOp(p, v) => t == PhantomT(p, v)
    case StorageLeafOp(suffix, position, v) =>
      && t.SlotT? && t.key == at + suffix && t.idx < |s.storages|
      && s.storages[t.idx].owner == owner && s.storages[t.idx].position == position
      && s.storages[t.idx].orig == v
    case AccountLeafOp(suffix, address, account, storage) =>
      && t.AccountT? && t.key == at + suffix && t.idx < |s.accounts|
      && s.accounts[t.idx].address == address && s.accounts[t.idx].orig == account
      && Spells(t.storage, storage, [], address, s)
    case BranchOp(slots) =>
      && t.BranchT? && |t.children| == 16 && |slots| == 16
      && forall k: Nibble :: SpellsSlot(t.children[k], slots[k], at + [k], owner, s)
  }

  predicate SpellsSlot(t: Tree, slot: Slot, at: Path, owner: int, s: Store)
    decreases slot
  {
    match slot
    case NoChild => t == EmptyT
    case HashChild(h) => t == HashT(h)
    case NodeChild(w) => Spells(t, w, at, owner, s)
  }

  /** The table rows of `s` are in `s'`, with the same keys and block-start values. */
  predicate RowsKept(s: Store, s': Store) {
    && |s.storages| <= |s'.storages| && |s.accounts| <= |s'.accounts|
    && (forall i :: 0 <= i < |s.storages| ==> SameSlot(s.storages[i], s'.storages[i]))
    && (forall i :: 0 <= i < |s.accounts| ==> SameKey(s.accounts[i], s'.accounts[i]))
  }

  predicate SameSlot(a: SlotRow, a': SlotRow) {
    a'.owner == a.owner && a'.position == a.position && a'.orig == a.orig
  }

  /** No row has been written since it was read. */
  predicate Unwritten(s: Store) {
    && (forall i :: 0 <= i < |s.accounts| ==> s.accounts[i].cur == s.accounts[i].orig)
    && (forall i :: 0 <= i < |s.storages| ==> s.storages[i].cur == s.storages[i].orig)
  }

  lemma UnwrittenValues(s: Store)
    requires Unwritten(s)
    ensures Currents(s) == Originals(s)
  {
  }

  lemma {:induction false} SpellsMore(t: Tree, w: Wit, at: Path, owner: int, s: Store, s': Store)
    requires RowsKept(s, s') && Spells(t, w, at, owner, s)
    ensures Spells(t, w, at, owner, s')
    decreases w
  {
    match w
    case BranchOp(slots) =>
      forall k: Nibble ensures SpellsSlot(t.children[k], slots[k], at + [k], owner, s') {
        assert SpellsSlot(t.children[k], slots[k], at + [k], owner, s);
        if slots[k].NodeChild? {
          SpellsMore(t.children[k], slots[k].node, at + [k], owner, s, s');
        }
      }
    case AccountLeafOp(_, address, _, storage) => SpellsMore(t.storage, storage, [], address, s, s');
    case _ =>
  }

  /** A witness reduces to nothing exactly when it opens nothing that exists. */
  lemma {:induction false} VacantReduces(t: Tree, w: Wit, at: Path, owner: int, s: Store, short: Encoding)
    requires Spells(t, w, at, owner, s) && Shaped(t, at)
    ensures Reduce(t, Originals(s), at, short) == EmptyR <==> Vacant(w)
    decreases w
  {
    if w.BranchOp? {
      var rs := ChildResults(t, Originals(s), at, short);
      forall k: Nibble
        ensures rs[k] == EmptyR <==> VacantSlot(w.slots[k])
      {
        assert SpellsSlot(t.children[k], w.slots[k], at + [k], owner, s);
        if w.slots[k].NodeChild? {
          VacantReduces(t.children[k], w.slots[k].node, at + [k], owner, s, short);
        }
      }
      BranchVacant(t, Originals(s), at, short);
      assert Vacant(w) <==> forall k: Nibble :: VacantSlot(w.slots[k]);
    }
  }

  predicate VacantSlot(slot: Slot) {
    !slot.HashChild? && (slot.NodeChild? ==> Vacant(slot.node))
  }

  /** A branch reduces to nothing exactly when its children do. */
  lemma BranchVacant(t: Tree, v: Values, at: Path, short: Encoding)
    requires Shaped(t, at) && t.BranchT?
    ensures Reduce(t, v, at, short) == EmptyR <==>
            forall k: Nibble :: ChildResults(t, v, at, short)[k] == EmptyR
  {
    var rs := ChildResults(t, v, at, short);
    BranchCases(t, v, at, short);
    if forall k: Nibble :: rs[k] == EmptyR {
      assert Live(rs) == {};
    } else if exists k: Nibble :: OnlyLive(rs, k) {
      var k: Nibble :| OnlyLive(rs, k);
      assert k in Live(rs);
    } else if k: Nibble :| k in Live(rs) {
      var i, j := TwoLive(rs);
    }
  }

  /** A storage trie has the empty root exactly when its witness is vacant. */
  lemma VacantRoot(t: Tree, w: Wit, owner: int, s: Store, short: Encoding)
    requires Spells(t, w, [], owner, s) && Shaped(t, [])
    ensures Finalize(Reduce(t, Originals(s), [], short), Originals(s)) == EmptyTrieRoot <==> EmptyStorage(w)
  {
    VacantReduces(t, w, [], owner, s, short);
    if w.BranchOp? {
      var rs := ChildResults(t, Originals(s), [], short);
      BranchCases(t, Originals(s), [], short);
      if Live(rs) != {} && !exists k: Nibble :: OnlyLive(rs, k) {
        var i, j := TwoLive(rs);
      }
    }
  }

  lemma {:induction false} TallyStuck(w: Wit, k: nat, j: nat, n: nat, limit: nat)
    requires w.BranchOp? && k <= j <= |w.slots| && TallySlots(w, k, n, limit).None?
    ensures TallySlots(w, j, n, limit).None?
    decreases j
  {
    if k < j { TallyStuck(w, k, j - 1, n, limit); }
  }

  /** One bad slot is enough to refuse the branch. */
  lemma StuckAt(w: Wit, k: Nibble, n: nat, limit: nat, walked: Path, hash: KeyHash)
    requires w.BranchOp? && |w.slots| == 16
    requires (w.slots[k].NodeChild? && !Lawful(w.slots[k].node, walked + [k], hash)) ||
             TallySlots(w, k + 1, n, limit).None?
    ensures !(LawfulBelow(w.slots, 16, walked, hash) && TallySlots(w, 16, n, limit).Some?)
  {
    if TallySlots(w, k + 1, n, limit).None? { TallyStuck(w, k + 1, 16, n, limit); }
  }

  // ----- rows and leaves --------------------------------------------------------------------

  /** A finished account row carries the hash of its address, a slot row that of its
      position. */
  ghost predicate Keyed(s: Store, hash: KeyHash)
    requires Aligned(s)
  {
    && (forall i :: 0 <= i < |s.accounts| && s.accountPlace[i].Some? ==> s.accounts[i].addrHash == hash(s.accounts[i].address))
    && (forall j :: 0 <= j < |s.storages| ==> s.storages[j].posHash == hash(s.storages[j].position))
  }

  predicate HoldsAccount(t: Tree, i: nat) {
    match t
    case AccountT(_, j, _) => i == j
    case BranchT(ch) => exists k :: 0 <= k < |ch| && HoldsAccount(ch[k], i)
    case _ => false
  }

  predicate HoldsSlot(t: Tree, i: nat) {
    match t
    case SlotT(_, j) => i == j
    case AccountT(_, _, storage) => HoldsSlot(storage, i)
    case BranchT(ch) => exists k :: 0 <= k < |ch| && HoldsSlot(ch[k], i)
    case _ => false
  }

  /** The rows from `a` and `n` on are the leaves of `t`, and finished. */
  ghost predicate Covered(t: Tree, s: Store, a: nat, n: nat)
    requires Aligned(s)
  {
    && (forall i: nat :: HoldsAccount(t, i) <==> a <= i < |s.accounts|)
    && (forall j: nat :: HoldsSlot(t, j) <==> n <= j < |s.storages|)
    && (forall i :: a <= i < |s.accounts| ==> s.accountPlace[i].Some?)
  }

  ghost predicate ChildHolds(s: Store, children: seq<Child>, k: nat, i: nat)
    requires Aligned(s)
  {
    exists j :: 0 <= j < k <= |children| && Known(s, children[j]) && HoldsAccount(TreeOf(s, children[j]), i)
  }

  ghost predicate ChildHoldsSlot(s: Store, children: seq<Child>, k: nat, i: nat)
    requires Aligned(s)
  {
    exists j :: 0 <= j < k <= |children| && Known(s, children[j]) && HoldsSlot(TreeOf(s, children[j]), i)
  }

  /** ... the leaves of the first `k` children. */
  ghost predicate CoveredBelow(s: Store, children: seq<Child>, k: nat, a: nat, n: nat)
    requires Aligned(s)
  {
    && k <= |children| && a <= |s.accounts| && n <= |s.storages|
    && (forall j :: 0 <= j < k ==> Known(s, children[j]))
    && (forall i: nat :: ChildHolds(s, children, k, i) <==> a <= i < |s.accounts|)
    && (forall i: nat :: ChildHoldsSlot(s, children, k, i) <==> n <= i < |s.storages|)
    && (forall i :: a <= i < |s.accounts| ==> s.accountPlace[i].Some?)
  }

  lemma CoverNext(s: Store, s': Store, children: seq<Child>, k: nat, c: Child, i: nat)
    requires Aligned(s) && Aligned(s') && Extends(s, s') && k < |children| && Known(s', c)
    requires forall j :: 0 <= j < k ==> Known(s, children[j])
    ensures ChildHolds(s', children[k := c], k + 1, i) <==> ChildHolds(s, children, k, i) || HoldsAccount(TreeOf(s', c), i)
    ensures ChildHoldsSlot(s', children[k := c], k + 1, i) <==>
            ChildHoldsSlot(s, children, k, i) || HoldsSlot(TreeOf(s', c), i)
  {
    var children' := children[k := c];
    forall j | 0 <= j < k ensures Known(s', children'[j]) && TreeOf(s', children'[j]) == TreeOf(s, children[j]) {
      ExtendsNode(s, s', children[j]);
    }
    assert children'[k] == c;
  }

  lemma CoverStep(s: Store, s': Store, children: seq<Child>, k: nat, c: Child, a: nat, n: nat)
    requires Aligned(s) && Aligned(s') && Extends(s, s') && k < |children| && Known(s', c)
    requires CoveredBelow(s, children, k, a, n) && Covered(TreeOf(s', c), s', |s.accounts|, |s.storages|)
    ensures CoveredBelow(s', children[k := c], k + 1, a, n)
  {
    var children', k' := children[k := c], k + 1;
    forall i: nat
      ensures ChildHolds(s', children', k', i) <==> a <= i < |s'.accounts|
      ensures ChildHoldsSlot(s', children', k', i) <==> n <= i < |s'.storages|
    {
      CoverNext(s, s', children, k, c, i);
    }
    forall j | 0 <= j < k' ensures Known(s', children'[j]) {
      if j < k { ExtendsNode(s, s', children[j]); }
    }
  }

  /** An account leaf over covered storage is covered. */
  lemma CoverLeaf(s: Store, s': Store, t: Tree, a: nat, n: nat)
    requires Aligned(s) && Aligned(s') && t.AccountT? && t.idx == a && Covered(t.storage, s, a + 1, n)
    requires |s'.accounts| == |s.accounts| == a + 1 && |s'.storages| == |s.storages| && s'.accountPlace[a].Some?
    ensures Covered(t, s', a, n)
  {
  }

  /** A branch over covered children is covered. */
  lemma CoverFork(s: Store, s': Store, t: Tree, children: seq<Child>, a: nat, n: nat)
    requires Aligned(s) && Aligned(s') && |children| == 16 && CoveredBelow(s, children, 16, a, n)
    requires t.BranchT? && |t.children| == 16
    requires forall j :: 0 <= j < 16 ==> Known(s, children[j]) && t.children[j] == TreeOf(s, children[j])
    requires |s'.accounts| == |s.accounts| && |s'.storages| == |s.storages| && s'.accountPlace == s.accountPlace
    ensures Covered(t, s', a, n)
  {
    forall i: nat
      ensures HoldsAccount(t, i) <==> a <= i < |s.accounts|
      ensures HoldsSlot(t, i) <==> n <= i < |s.storages|
    {
      assert ChildHolds(s, children, 16, i) <==> HoldsAccount(t, i);
      assert ChildHoldsSlot(s, children, 16, i) <==> HoldsSlot(t, i);
    }
  }

  /** The witness gives no extension without nibbles. */
  predicate NibblesGiven(w: Wit) {
    match w
    case ExtensionHashOp(p, _) => p != []
    case BranchOp(slots) => forall k: Nibble :: k < |slots| && slots[k].NodeChild? ==> NibblesGiven(slots[k].node)
    case AccountLeafOp(_, _, _, storage) => NibblesGiven(storage)
    case _ => true
  }

  lemma {:induction false} SpelledTree(t: Tree, w: Wit, kind: Kind, at: Path, owner: int, s: Store)
    requires Spells(t, w, at, owner, s) && WellFormed(w, kind)
    ensures NibblesGiven(w) ==> RealExtensions(t)
    ensures if kind == State then StateTree(t) else StorageTree(t)
    decreases w
  {
    match w
    case BranchOp(slots) =>
      forall k: Nibble
        ensures NibblesGiven(w) ==> RealExtensions(t.children[k])
        ensures if kind == State then StateTree(t.children[k]) else StorageTree(t.children[k])
      {
        assert SpellsSlot(t.children[k], slots[k], at + [k], owner, s);
        if slots[k].NodeChild? { SpelledTree(t.children[k], slots[k].node, kind, at + [k], owner, s); }
      }
    case AccountLeafOp(_, address, _, storage) => SpelledTree(t.storage, storage, Storage, [], address, s);
    case _ =>
  }

  /** A branch slot that has been read: its child spells it. */
  ghost predicate SlotBuilt(s: Store, slot: Slot, c: Child, tag: Tag, at: Path, owner: int, short: Encoding)
    requires Aligned(s)
  {
    && Known(s, c) && ChildOk(s, c, tag, TreeOf(s, c), at)
    && Shaped(TreeOf(s, c), at) && Within(TreeOf(s, c), |s.accounts|, |s.storages|)
    && StorageOwned(TreeOf(s, c), Originals(s), at, short)
    && SpellsSlot(TreeOf(s, c), slot, at, owner, s)
    && (c.ChainC? <==> slot.NodeChild? && IsRun(slot.node))
    && (tag.NoTag? <==> slot.NoChild?)
  }

  /** Slots `0..n` are read, the others not yet. */
  ghost predicate SlotsBuilt(s: Store, slots: seq<Slot>, n: int, children: seq<Child>, tags: seq<Tag>,
                             walked: Path, owner: int, short: Encoding)
  {
    && Aligned(s) && |slots| == 16 && |children| == 16 && |tags| == 16
    && (forall k: Nibble :: k < n ==> SlotBuilt(s, slots[k], children[k], tags[k], walked + [k], owner, short))
    && (forall k: Nibble :: k >= n ==> children[k] == EmptyC && tags[k] == NoTag)
  }

  /** Chain children are new, and an only child is not linked yet. */
  ghost predicate ChainsOwned(s: Store, slots: seq<Slot>, children: seq<Child>, first: nat)
    requires Aligned(s) && |slots| == 16 && |children| == 16
  {
    forall k: Nibble :: children[k].ChainC? ==>
      children[k].idx >= first && (Announces(slots, k) ==> Unlinked(s, children[k]))
  }

  /** `c` is the node built for `w`. */
  ghost predicate NodeBuilt(s: Store, c: Child, w: Wit, walked: Path, owner: int, short: Encoding) {
    && Aligned(s) && Known(s, c)
    && (Stored(c) ==> AtOf(s, c) == walked)
    && Shaped(TreeOf(s, c), walked) && Within(TreeOf(s, c), |s.accounts|, |s.storages|)
    && Spells(TreeOf(s, c), w, walked, owner, s)
    && StorageOwned(TreeOf(s, c), Originals(s), walked, short)
    && !c.PoolHashC? && (c.ChainC? <==> IsRun(w))
  }

  predicate LawfulBelow(slots: seq<Slot>, n: nat, walked: Path, hash: KeyHash) {
    forall k: Nibble :: k < n && k < |slots| && slots[k].NodeChild? ==> Lawful(slots[k].node, walked + [k], hash)
  }

  lemma LawfulBranch(w: Wit, walked: Path, hash: KeyHash)
    requires w.BranchOp? && |w.slots| == 16
    ensures Lawful(w, walked, hash) <==> |walked| < KEY_NIBBLES && LawfulBelow(w.slots, 16, walked, hash)
  {
  }

  lemma NoSlots(s: Store, slots: seq<Slot>, children: seq<Child>, tags: seq<Tag>,
                walked: Path, owner: int, short: Encoding)
    requires Aligned(s) && |slots| == 16 && |children| == 16 && |tags| == 16
    requires forall k: Nibble :: children[k] == EmptyC && tags[k] == NoTag
    ensures SlotsBuilt(s, slots, 0, children, tags, walked, owner, short)
    ensures ChainsOwned(s, slots, children, |s.chains|)
    ensures CoveredBelow(s, children, 0, |s.accounts|, |s.storages|)
  {
  }

  lemma SlotsStep(s: Store, s': Store, slots: seq<Slot>, n: Nibble, children: seq<Child>, tags: seq<Tag>,
                  c: Child, tag: Tag, walked: Path, owner: int, short: Encoding)
    requires SlotsBuilt(s, slots, n, children, tags, walked, owner, short)
    requires Aligned(s') && Extends(s, s') && SlotBuilt(s', slots[n], c, tag, walked + [n], owner, short)
    ensures SlotsBuilt(s', slots, n + 1, children[n := c], tags[n := tag], walked, owner, short)
  {
    forall k: Nibble | k < n
      ensures SlotBuilt(s', slots[k], children[k], tags[k], walked + [k], owner, short)
    {
      SlotKept(s, s', slots[k], children[k], tags[k], walked + [k], owner, short);
    }
  }

  lemma ChainsStep(s: Store, s': Store, slots: seq<Slot>, n: Nibble, children: seq<Child>, c: Child, first: nat)
    requires Aligned(s) && Aligned(s') && Extends(s, s') && first <= |s.chains| && |slots| == 16 && |children| == 16
    requires ChainsOwned(s, slots, children, first) && forall k: Nibble :: k >= n ==> children[k] == EmptyC
    requires c.ChainC? ==> c.idx >= |s.chains| && Unlinked(s', c)
    requires slots[n].NoChild? ==> s' == s
    ensures ChainsOwned(s', slots, children[n := c], first)
  {
  }

  lemma {:induction false} OwnedMore(t: Tree, at: Path, s: Store, s': Store, short: Encoding)
    requires Aligned(s) && Aligned(s') && Extends(s, s')
    requires Shaped(t, at) && Within(t, |s.accounts|, |s.storages|) && StorageOwned(t, Originals(s), at, short)
    ensures StorageOwned(t, Originals(s'), at, short)
    decreases t
  {
    if t.BranchT? {
      forall k: Nibble ensures StorageOwned(t.children[k], Originals(s'), at + [k], short) {
        OwnedMore(t.children[k], at + [k], s, s', short);
      }
    } else if t.AccountT? {
      WithinSame(t, s, s');
      SameReduces(t.storage, Originals(s), Originals(s'), [], short);
    }
  }

  lemma SlotKept(s: Store, s': Store, slot: Slot, c: Child, tag: Tag, at: Path, owner: int, short: Encoding)
    requires Aligned(s) && Aligned(s') && Extends(s, s') && SlotBuilt(s, slot, c, tag, at, owner, short)
    ensures SlotBuilt(s', slot, c, tag, at, owner, short) && TreeOf(s', c) == TreeOf(s, c)
  {
    ExtendsNode(s, s', c);
    WithinMore(TreeOf(s, c), |s.accounts|, |s.storages|, |s'.accounts|, |s'.storages|);
    OwnedMore(TreeOf(s, c), at, s, s', short);
    if slot.NodeChild? { SpellsMore(TreeOf(s, c), slot.node, at, owner, s, s'); }
  }

  /** A branch that announces one child is a run over it. */
  lemma RunSpelled(w: Wit, k: Nibble, s: Store, children: seq<Child>, tags: seq<Tag>,
                   walked: Path, owner: int, short: Encoding)
    requires w.BranchOp? && |w.slots| == 16 && Announces(w.slots, k)
    requires Aligned(s) && |children| == 16 && |tags| == 16 && Known(s, children[k])
    requires forall j: Nibble :: SlotBuilt(s, w.slots[j], children[j], tags[j], walked + [j], owner, short)
    ensures var t := Nest([k], TreeOf(s, children[k]));
            && Shaped(t, walked) && Within(t, |s.accounts|, |s.storages|)
            && StorageOwned(t, Originals(s), walked, short) && Spells(t, w, walked, owner, s)
  {
    var t := Nest([k], TreeOf(s, children[k]));
    assert [k][1..] == [] && Nest([], TreeOf(s, children[k])) == TreeOf(s, children[k]);
    assert SlotBuilt(s, w.slots[k], children[k], tags[k], walked + [k], owner, short);
    assert t.children[k] == TreeOf(s, children[k]);
    forall j: Nibble
      ensures SpellsSlot(t.children[j], w.slots[j], walked + [j], owner, s)
      ensures Shaped(t.children[j], walked + [j]) && StorageOwned(t.children[j], Originals(s), walked + [j], short)
    {
      assert SlotBuilt(s, w.slots[j], children[j], tags[j], walked + [j], owner, short);
    }
    WithinNest([k], TreeOf(s, children[k]), |s.accounts|, |s.storages|);
  }

  lemma ExtendsTrans(s: Store, s': Store, s'': Store)
    requires Aligned(s) && Aligned(s') && Aligned(s'') && Extends(s, s') && Extends(s', s'')
    ensures Extends(s, s'')
  {
  }

  /** The store after a run was closed over `only`. */
  function RunStore(s: Store, only: Child, k: Nibble, walked: Path): Store
    requires Aligned(s) && Known(s, only)
  {
    if only.ChainC? then ChainGrown(s, only.idx, k, walked)
    else AddChain(s, only, k, FoldAll([k], ResultOf(s, only)), walked)
  }

  lemma RunKeeps(s0: Store, s: Store, only: Child, k: Nibble, walked: Path, hash: KeyHash)
    requires Aligned(s0) && Aligned(s) && Extends(s0, s) && Known(s, only)
    requires only.ChainC? ==> only.idx >= |s0.chains|
    requires Unwritten(s) && Keyed(s, hash)
    ensures var s' := RunStore(s, only, k, walked);
            && Aligned(s') && Extends(s0, s') && RowsKept(s, s') && Originals(s') == Originals(s)
            && s'.accounts == s.accounts && s'.accountPlace == s.accountPlace && s'.storages == s.storages
            && Unwritten(s') && Keyed(s', hash)
  {
  }

  lemma RunBuilt(w: Wit, k: Nibble, s: Store, s': Store, c: Child, children: seq<Child>, tags: seq<Tag>,
                 walked: Path, owner: int, short: Encoding)
    requires w.BranchOp? && SlotsBuilt(s, w.slots, 16, children, tags, walked, owner, short) && Announces(w.slots, k)
    requires Known(s, children[k]) && Aligned(s') && RowsKept(s, s') && Originals(s') == Originals(s)
    requires |s'.accounts| == |s.accounts| && |s'.storages| == |s.storages|
    requires c.ChainC? && Known(s', c) && TreeOf(s', c) == Nest([k], TreeOf(s, children[k])) && AtOf(s', c) == walked
    ensures NodeBuilt(s', c, w, walked, owner, short)
  {
    RunSpelled(w, k, s, children, tags, walked, owner, short);
    SpellsMore(TreeOf(s', c), w, walked, owner, s, s');
    assert IsRun(w);
  }

  /** The tree of a run, child by child. */
  lemma RunTree(w: Wit, k: Nibble, s: Store, t: Tree, children: seq<Child>, tags: seq<Tag>,
                walked: Path, owner: int, short: Encoding)
    requires w.BranchOp? && SlotsBuilt(s, w.slots, 16, children, tags, walked, owner, short) && Announces(w.slots, k)
    requires Known(s, children[k]) && t == Nest([k], TreeOf(s, children[k]))
    ensures t.BranchT? && |t.children| == 16
    ensures forall j :: 0 <= j < 16 ==> Known(s, children[j]) && t.children[j] == TreeOf(s, children[j])
  {
    assert [k][1..] == [] && Nest([], TreeOf(s, children[k])) == TreeOf(s, children[k]);
    forall j | 0 <= j < 16 ensures Known(s, children[j]) && t.children[j] == TreeOf(s, children[j]) {
      assert SlotBuilt(s, w.slots[j], children[j], tags[j], walked + [j], owner, short);
    }
  }

  lemma RunCovered(w: Wit, k: Nibble, s: Store, s': Store, c: Child, children: seq<Child>, tags: seq<Tag>,
                   walked: Path, owner: int, a: nat, n: nat, short: Encoding)
    requires w.BranchOp? && SlotsBuilt(s, w.slots, 16, children, tags, walked, owner, short) && Announces(w.slots, k)
    requires Known(s, children[k]) && Aligned(s') && Known(s', c) && TreeOf(s', c) == Nest([k], TreeOf(s, children[k]))
    requires CoveredBelow(s, children, 16, a, n)
    requires |s'.accounts| == |s.accounts| && |s'.storages| == |s.storages| && s'.accountPlace == s.accountPlace
    ensures Covered(TreeOf(s', c), s', a, n)
  {
    RunTree(w, k, s, TreeOf(s', c), children, tags, walked, owner, short);
    CoverFork(s, s', TreeOf(s', c), children, a, n);
  }

  /** A run over a run grows it. */
  lemma RunGrows(w: Wit, k: Nibble, s: Store, children: seq<Child>, tags: seq<Tag>,
                 walked: Path, owner: int, short: Encoding)
    requires w.BranchOp? && SlotsBuilt(s, w.slots, 16, children, tags, walked, owner, short) && Announces(w.slots, k)
    ensures GrowsRun(w.slots) <==> children[k].ChainC?
  {
    assert SlotBuilt(s, w.slots[k], children[k], tags[k], walked + [k], owner, short);
    assert forall j :: 0 <= j < 16 && Announces(w.slots, j) ==> j == k;
  }

  lemma BranchBuilt(w: Wit, s: Store, s': Store, children: seq<Child>, tags: seq<Tag>,
                    walked: Path, owner: int, short: Encoding)
    requires w.BranchOp? && |w.slots| == 16 && Aligned(s) && Aligned(s') && Extends(s, s')
    requires |children| == 16 && |tags| == 16
    requires forall j: Nibble :: SlotBuilt(s, w.slots[j], children[j], tags[j], walked + [j], owner, short)
    requires forall j: Nibble :: Known(s, children[j])
    ensures var t := BranchOver(s, children);
            && Shaped(t, walked) && Within(t, |s'.accounts|, |s'.storages|)
            && StorageOwned(t, Originals(s'), walked, short) && Spells(t, w, walked, owner, s')
  {
    var t := BranchOver(s, children);
    forall j: Nibble
      ensures SpellsSlot(t.children[j], w.slots[j], walked + [j], owner, s')
      ensures Shaped(t.children[j], walked + [j]) && StorageOwned(t.children[j], Originals(s'), walked + [j], short)
      ensures Within(t.children[j], |s'.accounts|, |s'.storages|)
    {
      SlotKept(s, s', w.slots[j], children[j], tags[j], walked + [j], owner, short);
    }
  }

  lemma ForkOk(w: Wit, s: Store, b: BranchRec, rs: seq<NodeR>, walked: Path, owner: int, short: Encoding)
    requires w.BranchOp? && |w.slots| == 16 && Sound(s) && Fresh(s, short)
    requires |b.children| == 16 && |b.tags| == 16 && |rs| == 16
    requires forall j: Nibble :: SlotBuilt(s, w.slots[j], b.children[j], b.tags[j], walked + [j], owner, short)
    requires forall j: Nibble :: Known(s, b.children[j]) && rs[j] == ResultOf(s, b.children[j])
    requires b.cached == Branched(rs, Originals(s), short) && !IsRun(w)
    ensures var s' := AddBranch(s, b, walked);
            && Sound(s') && Fresh(s', short) && Extends(s, s')
            && NodeBuilt(s', BranchC(|s.branches|), w, walked, owner, short)
  {
    forall k: Nibble
      ensures ChildOk(s, b.children[k], b.tags[k], TreeOf(s, b.children[k]), walked + [k])
      ensures Shaped(TreeOf(s, b.children[k]), walked + [k])
      ensures Within(TreeOf(s, b.children[k]), |s.accounts|, |s.storages|)
    {
      assert SlotBuilt(s, w.slots[k], b.children[k], b.tags[k], walked + [k], owner, short);
    }
    assert rs == seq(16, (k: Nibble) requires Known(s, b.children[k]) => ResultOf(s, b.children[k]));
    AddBranchOk(s, b, walked, short);
    BranchBuilt(w, s, AddBranch(s, b, walked), b.children, b.tags, walked, owner, short);
  }

  lemma LeafOk(w: Wit, s: Store, i: nat, c: Child, r: NodeR, walked: Path, short: Encoding)
    requires w.AccountLeafOp? && Sound(s) && Fresh(s, short) && i < |s.accounts| && s.accountPlace[i].None?
    requires |walked + w.suffix| == KEY_NIBBLES && Known(s, c)
    requires s.accounts[i].address == w.address && s.accounts[i].orig == w.account
    requires Shaped(TreeOf(s, c), []) && Within(TreeOf(s, c), |s.accounts|, |s.storages|)
    requires Stored(c) ==> AtOf(s, c) == []
    requires Spells(TreeOf(s, c), w.storage, [], w.address, s)
    requires w.account == EMPTY_ACCOUNT ==> EmptyStorage(w.storage)
    requires r == if w.account == EMPTY_ACCOUNT then EmptyR
                  else AccountLeafR((walked + w.suffix)[|walked|..], i, Finalize(ResultOf(s, c), Originals(s)))
    ensures var s' := FinishAccount(s, i, walked + w.suffix, c, r, walked);
            && Sound(s') && Fresh(s', short) && Extends(s, s')
            && NodeBuilt(s', AccountC(i), w, walked, 0, short)
  {
    var key := walked + w.suffix;
    FinishAccountOk(s, i, key, c, r, walked, short);
    var s' := FinishAccount(s, i, key, c, r, walked);
    SpellsMore(TreeOf(s, c), w.storage, [], w.address, s, s');
    VacantRoot(TreeOf(s, c), w.storage, w.address, s, short);
  }

  lemma SlotLeafOk(w: Wit, s: Store, row: SlotRow, walked: Path, owner: int, short: Encoding, hash: KeyHash)
    requires w.StorageLeafOp? && Sound(s) && Fresh(s, short) && |walked + w.suffix| == KEY_NIBBLES
    requires Unwritten(s) && Keyed(s, hash) && hash(w.position) == walked + w.suffix
    requires row == SlotRow(owner, w.position, walked + w.suffix, w.slotValue, w.slotValue,
                            if w.slotValue == 0 then EmptyR else StorageLeafR((walked + w.suffix)[|walked|..], |s.storages|))
    ensures var s', c := AddSlot(s, row, walked), StorageC(|s.storages|);
            && Sound(s') && Fresh(s', short) && Extends(s, s') && NodeBuilt(s', c, w, walked, owner, short)
            && Covered(TreeOf(s', c), s', |s.accounts|, |s.storages|) && Unwritten(s') && Keyed(s', hash)
  {
    AddSlotOk(s, row, walked, short);
  }

  class Engine {
    const short: Encoding
    const hash: KeyHash
    const limit: nat

    var branches: seq<BranchRec>
    var aux: seq<NodeR>
    var chains: seq<ChainRec>
    var poolCount: nat
    var accounts: seq<AccountRow>
    var storages: seq<SlotRow>

    ghost var branchPlace: seq<Place>
    ghost var chainPlace: seq<Place>
    ghost var accountPlace: seq<Option<Place>>
    ghost var slotPlace: seq<Place>

    ghost function S(): Store
      reads this
    {
      Store(branches, aux, chains, accounts, storages, branchPlace, chainPlace, accountPlace, slotPlace)
    }

    /** The nodes counted against the declared limit. */
    function Count(): nat
      reads this
    {
      |branches| + |aux| + |chains| + poolCount
    }

    ghost predicate Ready()
      reads this
    {
      Sound(S()) && Fresh(S(), short) && Unwritten(S()) && Keyed(S(), hash) && Count() <= limit
    }

    /** `c` is the node built for `w`. */
    ghost predicate Built(c: Child, w: Wit, walked: Path, owner: int)
      reads this
    {
      NodeBuilt(S(), c, w, walked, owner, short)
    }

    constructor (short: Encoding, hash: KeyHash, limit: nat)
      ensures this.short == short && this.hash == hash && this.limit == limit
      ensures Ready() && Count() == 0 && accounts == [] && storages == []
    {
      this.short, this.hash, this.limit := short, hash, limit;
      branches, aux, chains, poolCount, accounts, storages := [], [], [], 0, [], [];
      branchPlace, chainPlace, accountPlace, slotPlace := [], [], [], [];
    }

    // ----- packing and folding ---------------------------------------------------------

    function ValuesOf(which: ValueSet): (v: Values)
      reads this
      ensures v == if which == Original then Originals(S()) else Currents(S())
    {
      if which == Original
      then Values(seq(|accounts|, i requires 0 <= i < |accounts| reads this => accounts[i].orig),
                  seq(|storages|, i requires 0 <= i < |storages| reads this => storages[i].orig))
      else Values(seq(|accounts|, i requires 0 <= i < |accounts| reads this => accounts[i].cur),
                  seq(|storages|, i requires 0 <= i < |storages| reads this => storages[i].cur))
    }

    predicate InRange(c: Child)
      reads this
    {
      match c
      case EmptyC => true
      case PoolHashC(_) => true
      case BranchC(i) => i < |branches|
      case ChainC(i) => i < |chains|
      case AccountC(i) => i < |accounts|
      case StorageC(i) => i < |storages|
      case HashC(i) => i < |aux|
      case ExtensionHashC(i) => i < |aux|
      case PhantomLeafC(i) => i < |aux|
    }

    /** The child's current result, wherever it is kept. */
    function ResultPtr(c: Child): (r: NodeR)
      reads this
      requires InRange(c)
      ensures Aligned(S()) && Known(S(), c) ==> r == ResultOf(S(), c)
    {
      match c
      case EmptyC => EmptyR
      case PoolHashC(h) => HashR(h)
      case BranchC(i) => branches[i].cached
      case ChainC(i) => chains[i].cached
      case AccountC(i) => accounts[i].cached
      case StorageC(i) => storages[i].cached
      case HashC(i) => aux[i]
      case ExtensionHashC(i) => aux[i]
      case PhantomLeafC(i) => aux[i]
    }

    ghost function Results(children: seq<Child>): (rs: seq<NodeR>)
      reads this
      requires |children| == 16 && forall k: Nibble :: InRange(children[k])
      ensures |rs| == 16
    {
      seq(16, (k: Nibble) requires InRange(children[k]) reads this => ResultPtr(children[k]))
    }

    method PackBranch(children: seq<Child>, which: ValueSet) returns (h: Hash)
      requires |children| == 16 && forall k: Nibble :: InRange(children[k])
      ensures var rs, v := Results(children), ValuesOf(which);
              h == Digest(BranchNode(seq(16, (k: Nibble) => SlotRef(rs[k], v, short)), None))
    {
      var v := ValuesOf(which);
      var refs := [];
      for k := 0 to 16
        invariant |refs| == k
        invariant forall j: Nibble :: j < k ==> refs[j] == SlotRef(ResultPtr(children[j]), v, short)
      {
        var n: Nibble := k;
        refs := refs + [SlotRef(ResultPtr(children[n]), v, short)];
      }
      h := Digest(BranchNode(refs, None));
      ghost var rs := Results(children);
      assert refs == seq(16, (k: Nibble) => SlotRef(rs[k], v, short));
    }

    /** A branch the witness showed with two children would fold onto an opaque hash. */
    ghost predicate Orphaned(children: seq<Child>, which: ValueSet)
      reads this
      requires |children| == 16 && forall k: Nibble :: InRange(children[k])
    {
      && which == Current
      && (exists k: Nibble :: OnlyLive(Results(children), k) && (children[k].PoolHashC? || children[k].HashC?))
      && (exists i: Nibble, j: Nibble :: i < j && children[i] != EmptyC && children[j] != EmptyC)
    }

    method ReduceBranch(children: seq<Child>, tags: seq<Tag>, which: ValueSet) returns (ok: bool, r: NodeR)
      requires |children| == 16 && |tags| == 16 && forall k: Nibble :: InRange(children[k])
      requires forall k: Nibble :: children[k].PoolHashC? <==> tags[k].HashTag?
      ensures ok <==> !Orphaned(children, which)
      ensures ok ==> r == Branched(Results(children), ValuesOf(which), short)
    {
      ghost var rs := Results(children);
      ok := true;
      // Two or more hash children never fold.
      var hashes, first := 0, 0;
      ghost var second := 0;
      for k := 0 to 16
        invariant 0 <= hashes <= k
        invariant hashes == 0 ==> forall j: Nibble :: j < k ==> !tags[j].HashTag?
        invariant hashes == 1 ==> 0 <= first < k && tags[first].HashTag?
        invariant hashes >= 2 ==> 0 <= first < second < k && tags[first].HashTag? && tags[second].HashTag?
      {
        if tags[k].HashTag? {
          if hashes == 0 { first := k; } else { second := k; }
          hashes := hashes + 1;
        }
      }
      if hashes >= 2 {
        assert first in Live(rs) && second in Live(rs);
        assert forall k: Nibble :: !OnlyLive(rs, k);
        var h := PackBranch(children, which);
        r := HashR(h);
        return;
      }
      var count, single := 0, -1;
      ghost var other := -1;
      for k := 0 to 16
        invariant 0 <= count <= k
        invariant count == 0 ==> forall j: Nibble :: j < k ==> rs[j].EmptyR?
        invariant count >= 1 ==> 0 <= single < k && !rs[single].EmptyR?
        invariant count == 1 ==> forall j: Nibble :: j < k && j != single ==> rs[j].EmptyR?
        invariant count >= 2 ==> 0 <= other < single && !rs[other].EmptyR?
      {
        var n: Nibble := k;
        if !ResultPtr(children[n]).EmptyR? {
          other := single;
          count, single := count + 1, k;
        }
      }
      if count == 0 {
        assert Live(rs) == {};
        return true, EmptyR;
      }
      if count == 1 {
        var k: Nibble := single;
        assert Live(rs) == {k};
        assert OnlyLive(rs, k);
        OnlyOne(rs, k);
        if (children[k].PoolHashC? || children[k].HashC?) && which == Current {
          ok := CheckOrphan(children);
        }
        r := FoldNibble(k, ResultPtr(children[k]));
        return;
      }
      assert other in Live(rs) && single in Live(rs);
      assert forall k: Nibble :: !OnlyLive(rs, k);
      var h := PackBranch(children, which);
      r := HashR(h);
    }

    method CheckOrphan(children: seq<Child>) returns (ok: bool)
      requires |children| == 16
      ensures ok <==> !exists i: Nibble, j: Nibble :: i < j && children[i] != EmptyC && children[j] != EmptyC
    {
      var shown, first := 0, 0;
      for k := 0 to 16
        invariant 0 <= shown <= 1
        invariant shown == 0 ==> forall j: Nibble :: j < k ==> children[j] == EmptyC
        invariant shown == 1 ==> 0 <= first < k && children[first] != EmptyC
        invariant shown == 1 ==> forall j: Nibble :: j < k && j != first ==> children[j] == EmptyC
      {
        if children[k] != EmptyC {
          if shown == 1 {
            ghost var i: Nibble, j: Nibble := first, k;
            assert i < j;
            return false;
          }
          shown, first := 1, k;
        }
      }
      return true;
    }

    /** A chain's one-child branches folded from the innermost out. */
    method ChainResult(child: Child, prefix: Path) returns (r: NodeR)
      requires InRange(child)
      ensures r == FoldAll(prefix, ResultPtr(child))
    {
      r := ResultPtr(child);
      var i := |prefix|;
      while i > 0
        invariant 0 <= i <= |prefix|
        invariant r == FoldAll(prefix[i..], ResultPtr(child))
      {
        i := i - 1;
        r := FoldNibble(prefix[i], r);
        assert prefix[i..][1..] == prefix[i + 1..];
      }
      assert prefix[0..] == prefix;
    }

    // ----- the build pass ---------------------------------------------------------------

    method AuxEmplace(r: NodeR) returns (ok: bool, idx: nat)
      requires Ready() && (r.HashR? || r.ExtR? || r.PhantomLeafR?)
      modifies this
      ensures ok <==> old(Count()) < limit
      ensures ok ==> idx == old(|aux|) && S() == AddAux(old(S()), r) && Count() == old(Count()) + 1
      ensures ok ==> Ready() && Extends(old(S()), S())
      ensures accounts == old(accounts) && accountPlace == old(accountPlace) && storages == old(storages)
    {
      if Count() >= limit { return false, 0; }
      AddAuxOk(S(), r, short);
      idx := |aux|;
      aux := aux + [r];
      ok := true;
    }

    /** A branch with one child: grow the chain the child already is, or start one. */
    method BuildChain(only: Child, k: Nibble, ghost walked: Path) returns (c: Child)
      requires Sound(S()) && Fresh(S(), short) && Known(S(), only)
      requires Shaped(TreeOf(S(), only), walked + [k]) && Within(TreeOf(S(), only), |accounts|, |storages|)
      requires Stored(only) ==> AtOf(S(), only) == walked + [k]
      requires only.ChainC? ==> Unlinked(S(), only)
      modifies this
      ensures c.ChainC? && Known(old(S()), only)
      ensures S() == RunStore(old(S()), only, k, walked)
      ensures c.idx == if only.ChainC? then only.idx else old(|chains|)
      ensures Sound(S()) && Fresh(S(), short) && Unlinked(S(), c)
      ensures Known(S(), c) && TreeOf(S(), c) == Nest([k], TreeOf(old(S()), only)) && AtOf(S(), c) == walked
      ensures poolCount == old(poolCount)
    {
      if only.ChainC? {
        ChainGrownOk(S(), only.idx, k, walked, short);
        var ch := chains[only.idx];
        chains := chains[only.idx := ChainRec(ch.child, [k] + ch.prefix, FoldNibble(k, ch.cached))];
        chainPlace := chainPlace[only.idx := Place(Nest([k], chainPlace[only.idx].tree), walked)];
        c := only;
      } else {
        AddChainOk(S(), only, k, walked, short);
        var r := ChainResult(only, [k]);
        chainPlace := chainPlace + [Place(Nest([k], TreeOf(S(), only)), walked)];
        c := ChainC(|chains|);
        chains := chains + [ChainRec(only, [k], r)];
      }
    }

    /** Read one branch slot. */
    method BuildSlot(slot: Slot, kind: Kind, at: Path, owner: int) returns (ok: bool, c: Child, tag: Tag)
      requires Ready() && (slot.NodeChild? ==> WellFormed(slot.node, kind))
      modifies this
      ensures ok <==> (slot.NodeChild? ==> Lawful(slot.node, at, hash)) && TallySlot(slot, old(Count()), limit).Some?
      ensures ok ==> Ready() && Extends(old(S()), S()) && Count() == TallySlot(slot, old(Count()), limit).value
      ensures ok ==> SlotBuilt(S(), slot, c, tag, at, owner, short)
      ensures ok ==> Covered(TreeOf(S(), c), S(), old(|accounts|), old(|storages|))
      ensures ok && c.ChainC? ==> c.idx >= old(|chains|) && Unlinked(S(), c)
      ensures ok && slot.NoChild? ==> S() == old(S())
      ensures ok && kind == Storage ==> accounts == old(accounts) && accountPlace == old(accountPlace)
      decreases slot
    {
      ok, c, tag := true, EmptyC, NoTag;
      match slot
      case NoChild =>
      case HashChild(h) =>
        if Count() >= limit { return false, c, tag; }
        poolCount := poolCount + 1;
        c, tag := PoolHashC(h), HashTag;
      case NodeChild(node) =>
        ok, c := BuildNode(node, kind, at, owner);
        tag := NodeTag;
    }

    /** Read the slots of a branch, in order. */
    method BuildSlots(w: Wit, kind: Kind, walked: Path, owner: int)
      returns (ok: bool, children: seq<Child>, tags: seq<Tag>)
      requires Ready() && WellFormed(w, kind) && w.BranchOp?
      modifies this
      ensures ok <==> LawfulBelow(w.slots, 16, walked, hash) && TallySlots(w, 16, old(Count()), limit).Some?
      ensures ok ==> Halfway(w, 16, children, tags, walked, owner, old(S()), old(Count()))
      ensures ok && kind == Storage ==> accounts == old(accounts) && accountPlace == old(accountPlace)
      decreases w, 1
    {
      children, tags := seq(16, _ => EmptyC), seq(16, _ => NoTag);
      ghost var s0, n0 := S(), Count();
      NothingRead(w, children, tags, walked, owner);
      for n := 0 to 16
        invariant Halfway(w, n, children, tags, walked, owner, s0, n0)
        invariant LawfulBelow(w.slots, n, walked, hash)
        invariant kind == Storage ==> accounts == s0.accounts && accountPlace == s0.accountPlace
      {
        var k: Nibble := n;
        ok, children, tags := BuildNext(w, k, kind, children, tags, walked, owner, s0, n0);
        if !ok {
          StuckAt(w, k, n0, limit, walked, hash);
          return;
        }
      }
      ok := true;
    }

    /** The state of the loop over the slots; after the last, every slot is read, and the
        rows added since `s0` are the leaves of the children. */
    ghost predicate Halfway(w: Wit, n: nat, children: seq<Child>, tags: seq<Tag>, walked: Path, owner: int,
                            s0: Store, n0: nat)
      reads this
    {
      && w.BranchOp? && n <= 16 && Ready() && Aligned(s0) && Extends(s0, S())
      && SlotsBuilt(S(), w.slots, n, children, tags, walked, owner, short)
      && ChainsOwned(S(), w.slots, children, |s0.chains|)
      && CoveredBelow(S(), children, n, |s0.accounts|, |s0.storages|)
      && TallySlots(w, n, n0, limit) == Some(Count())
    }

    lemma NothingRead(w: Wit, children: seq<Child>, tags: seq<Tag>, walked: Path, owner: int)
      requires Ready() && w.BranchOp? && |w.slots| == 16 && |children| == 16 && |tags| == 16
      requires forall k: Nibble :: children[k] == EmptyC && tags[k] == NoTag
      ensures Halfway(w, 0, children, tags, walked, owner, S(), Count())
    {
      NoSlots(S(), w.slots, children, tags, walked, owner, short);
    }

    method BuildNext(w: Wit, k: Nibble, kind: Kind, children: seq<Child>, tags: seq<Tag>, walked: Path, owner: int,
                     ghost s0: Store, ghost n0: nat)
      returns (ok: bool, children': seq<Child>, tags': seq<Tag>)
      requires Halfway(w, k, children, tags, walked, owner, s0, n0) && WellFormed(w, kind)
      modifies this
      ensures ok <==> (w.slots[k].NodeChild? ==> Lawful(w.slots[k].node, walked + [k], hash))
                      && TallySlots(w, k + 1, n0, limit).Some?
      ensures ok ==> Halfway(w, k + 1, children', tags', walked, owner, s0, n0)
      ensures ok && kind == Storage ==> accounts == old(accounts) && accountPlace == old(accountPlace)
      decreases w, 0
    {
      ghost var s := S();
      var c, tag;
      ok, c, tag := BuildSlot(w.slots[k], kind, walked + [k], owner);
      children', tags' := children[k := c], tags[k := tag];
      if ok {
        SlotsStep(s, S(), w.slots, k, children, tags, c, tag, walked, owner, short);
        ChainsStep(s, S(), w.slots, k, children, c, |s0.chains|);
        CoverStep(s, S(), children, k, c, |s0.accounts|, |s0.storages|);
        ExtendsTrans(s0, s, S());
      }
    }

    /** The slot of the only announced child, or 16. */
    method OnlyAnnounced(ghost slots: seq<Slot>, tags: seq<Tag>) returns (k: nat)
      requires |slots| == 16 && |tags| == 16 && forall j: Nibble :: tags[j].NoTag? <==> slots[j].NoChild?
      ensures k <= 16
      ensures k < 16 ==> Announces(slots, k)
      ensures k == 16 ==> !exists j :: 0 <= j < |slots| && Announces(slots, j)
    {
      var count, first := 0, 16;
      ghost var second := 16;
      for n := 0 to 16
        invariant 0 <= count <= n
        invariant count == 0 ==> first == 16 && forall j: Nibble :: j < n ==> tags[j].NoTag?
        invariant count >= 1 ==> 0 <= first < n && !tags[first].NoTag?
        invariant count == 1 ==> forall j: Nibble :: j < n && j != first ==> tags[j].NoTag?
        invariant count >= 2 ==> first < second < n && !tags[second].NoTag?
      {
        if !tags[n].NoTag? {
          if count == 0 { first := n; } else { second := n; }
          count := count + 1;
        }
      }
      k := if count == 1 then first else 16;
      if count != 1 {
        forall j | 0 <= j < 16 ensures !Announces(slots, j) {
          if count == 0 { assert slots[j].NoChild?; }
          else { assert !slots[first].NoChild? && !slots[second].NoChild?; }
        }
      }
    }

    /** A branch with one announced child becomes a chain over it. */
    method CloseRun(w: Wit, k: Nibble, children: seq<Child>, tags: seq<Tag>,
                    ghost walked: Path, ghost owner: int, ghost s0: Store, ghost n0: nat)
      returns (c: Child)
      requires Halfway(w, 16, children, tags, walked, owner, s0, n0) && Announces(w.slots, k) && Count() < limit
      modifies this
      ensures Ready() && Extends(s0, S()) && Built(c, w, walked, owner)
      ensures Covered(TreeOf(S(), c), S(), |s0.accounts|, |s0.storages|)
      ensures Count() == old(Count()) + if GrowsRun(w.slots) then 0 else 1
      ensures c.ChainC? && c.idx >= |s0.chains| && Unlinked(S(), c)
      ensures accounts == old(accounts) && accountPlace == old(accountPlace)
    {
      ghost var s := S();
      assert SlotBuilt(s, w.slots[k], children[k], tags[k], walked + [k], owner, short);
      RunGrows(w, k, s, children, tags, walked, owner, short);
      RunKeeps(s0, s, children[k], k, walked, hash);
      c := BuildChain(children[k], k, walked);
      RunBuilt(w, k, s, S(), c, children, tags, walked, owner, short);
      RunCovered(w, k, s, S(), c, children, tags, walked, owner, |s0.accounts|, |s0.storages|, short);
    }

    /** Another branch becomes a branch node with its reduction cached. */
    method CloseFork(w: Wit, children: seq<Child>, tags: seq<Tag>,
                     ghost walked: Path, ghost owner: int, ghost s0: Store, ghost n0: nat)
      returns (c: Child)
      requires Halfway(w, 16, children, tags, walked, owner, s0, n0) && !IsRun(w) && Count() < limit
      modifies this
      ensures Ready() && Extends(s0, S()) && Built(c, w, walked, owner)
      ensures Covered(TreeOf(S(), c), S(), |s0.accounts|, |s0.storages|)
      ensures Count() == old(Count()) + 1 && c.BranchC?
      ensures accounts == old(accounts) && accountPlace == old(accountPlace)
    {
      ghost var s := S();
      var r := ForkResult(w, children, tags, walked, owner);
      branchPlace := branchPlace + [Place(BranchOver(s, children), walked)];
      c := BranchC(|branches|);
      branches := branches + [BranchRec(children, tags, r)];
      assert S() == AddBranch(s, BranchRec(children, tags, r), walked);
      CoverFork(s, S(), TreeOf(S(), c), children, |s0.accounts|, |s0.storages|);
      ExtendsTrans(s0, s, S());
    }

    /** The reduction to cache, and why the branch record fits the store. */
    method ForkResult(w: Wit, children: seq<Child>, tags: seq<Tag>, ghost walked: Path, ghost owner: int)
      returns (r: NodeR)
      requires w.BranchOp? && SlotsBuilt(S(), w.slots, 16, children, tags, walked, owner, short) && !IsRun(w)
      requires Ready()
      ensures forall k: Nibble :: Known(S(), children[k])
      ensures var s' := AddBranch(S(), BranchRec(children, tags, r), walked);
              && Sound(s') && Fresh(s', short) && Extends(S(), s')
              && NodeBuilt(s', BranchC(|branches|), w, walked, owner, short)
    {
      assert forall k: Nibble :: SlotBuilt(S(), w.slots[k], children[k], tags[k], walked + [k], owner, short);
      assert forall k: Nibble :: Known(S(), children[k]);
      var ok;
      ok, r := ReduceBranch(children, tags, Original);
      ForkOk(w, S(), BranchRec(children, tags, r), Results(children), walked, owner, short);
    }

    method BuildBranch(w: Wit, kind: Kind, walked: Path, owner: int) returns (ok: bool, c: Child)
      requires Ready() && WellFormed(w, kind) && w.BranchOp?
      modifies this
      ensures ok <==> Lawful(w, walked, hash) && Tally(w, old(Count()), limit).Some?
      ensures ok ==> Ready() && Extends(old(S()), S()) && Count() == Tally(w, old(Count()), limit).value
      ensures ok ==> Built(c, w, walked, owner) && Covered(TreeOf(S(), c), S(), old(|accounts|), old(|storages|))
      ensures ok && c.ChainC? ==> c.idx >= old(|chains|) && Unlinked(S(), c)
      ensures ok && kind == Storage ==> accounts == old(accounts) && accountPlace == old(accountPlace)
      decreases w, 2
    {
      c := EmptyC;
      if |walked| >= KEY_NIBBLES { return false, c; }
      ghost var s0, n0 := S(), Count();
      LawfulBranch(w, walked, hash);
      var built, children, tags := BuildSlots(w, kind, walked, owner);
      if !built || Count() >= limit { return false, c; }
      c := CloseBranch(w, children, tags, walked, owner, s0, n0);
      ok := true;
    }

    /** A run of one-child branches, or a fork. */
    method CloseBranch(w: Wit, children: seq<Child>, tags: seq<Tag>,
                       ghost walked: Path, ghost owner: int, ghost s0: Store, ghost n0: nat)
      returns (c: Child)
      requires Halfway(w, 16, children, tags, walked, owner, s0, n0) && Count() < limit
      modifies this
      ensures Ready() && Extends(s0, S()) && Built(c, w, walked, owner)
      ensures Covered(TreeOf(S(), c), S(), |s0.accounts|, |s0.storages|)
      ensures Count() == old(Count()) + if GrowsRun(w.slots) then 0 else 1
      ensures c.ChainC? ==> c.idx >= |s0.chains| && Unlinked(S(), c)
      ensures accounts == old(accounts) && accountPlace == old(accountPlace)
    {
      var only := OnlyAnnounced(w.slots, tags);
      if only < 16 {
        c := CloseRun(w, only, children, tags, walked, owner, s0, n0);
      } else {
        c := CloseFork(w, children, tags, walked, owner, s0, n0);
      }
    }

    /** The leaf of account row `idx`, once its storage subtree is built. */
    method FinishLeaf(w: Wit, idx: nat, storage: Child, walked: Path) returns (ok: bool)
      requires Ready() && w.AccountLeafOp? && Built(storage, w.storage, [], w.address)
      requires |walked + w.suffix| == KEY_NIBBLES
      requires idx < |accounts| && accountPlace[idx].None?
      requires accounts[idx].address == w.address && accounts[idx].orig == w.account
      requires hash(w.address) == walked + w.suffix
      modifies this
      ensures ok <==> (w.account == EMPTY_ACCOUNT ==> EmptyStorage(w.storage))
      ensures ok ==> Ready() && Extends(old(S()), S()) && Count() == old(Count())
      ensures ok ==> Built(AccountC(idx), w, walked, 0)
      ensures ok ==> TreeOf(S(), AccountC(idx)) == AccountT(walked + w.suffix, idx, TreeOf(old(S()), storage))
      ensures |accounts| == old(|accounts|) && storages == old(storages)
    {
      var key := walked + w.suffix;
      ghost var s := S();
      var r;
      ok, r := LeafResult(w, idx, storage, walked);
      if !ok { return; }  // storage without an account
      LeafOk(w, s, idx, storage, r, walked, short);
      accounts := accounts[idx := accounts[idx].(addrHash := key, storageChild := storage, cached := r)];
      accountPlace := accountPlace[idx := Some(Place(AccountT(key, idx, TreeOf(s, storage)), walked))];
      assert S() == FinishAccount(s, idx, key, storage, r, walked);
    }

    method LeafResult(w: Wit, idx: nat, storage: Child, walked: Path) returns (ok: bool, r: NodeR)
      requires Ready() && w.AccountLeafOp? && Built(storage, w.storage, [], w.address)
      ensures ok <==> (w.account == EMPTY_ACCOUNT ==> EmptyStorage(w.storage))
      ensures ok ==> r == if w.account == EMPTY_ACCOUNT then EmptyR
                          else AccountLeafR((walked + w.suffix)[|walked|..], idx, Finalize(ResultOf(S(), storage), Originals(S())))
    {
      var root := Finalize(ResultPtr(storage), ValuesOf(Original));
      VacantRoot(TreeOf(S(), storage), w.storage, w.address, S(), short);
      assert ResultOf(S(), storage) == Red(S(), storage, Originals(S()), short);
      if w.account == EMPTY_ACCOUNT { return root == EmptyTrieRoot, EmptyR; }
      return true, AccountLeafR((walked + w.suffix)[|walked|..], idx, root);
    }

    /** An account leaf: a table row, its storage subtree, then the leaf itself. */
    method BuildAccountLeaf(w: Wit, walked: Path) returns (ok: bool, c: Child)
      requires Ready() && WellFormed(w, State) && w.AccountLeafOp?
      modifies this
      ensures ok <==> Lawful(w, walked, hash) && Tally(w, old(Count()), limit).Some?
      ensures ok ==> Ready() && Extends(old(S()), S()) && Count() == Tally(w, old(Count()), limit).value
      ensures ok ==> Built(c, w, walked, 0) && c.AccountC?
      ensures ok ==> Covered(TreeOf(S(), c), S(), old(|accounts|), old(|storages|))
      decreases w, 2
    {
      c := EmptyC;
      var key := walked + w.suffix;
      if |key| != KEY_NIBBLES || hash(w.address) != key { return false, c; }
      var built, idx, storage := BuildStorage(w);
      if !built { return false, c; }
      ghost var s := S();
      ok := FinishLeaf(w, idx, storage, walked);
      c := AccountC(idx);
      if ok { CoverLeaf(s, S(), TreeOf(S(), c), idx, old(|storages|)); }
    }

    /** The table row, and the storage subtree below it. */
    method BuildStorage(w: Wit) returns (ok: bool, idx: nat, storage: Child)
      requires Ready() && WellFormed(w, State) && w.AccountLeafOp?
      modifies this
      ensures ok <==> Lawful(w.storage, [], hash) && Tally(w.storage, old(Count()), limit).Some?
      ensures ok ==> Ready() && Extends(old(S()), S()) && Count() == Tally(w.storage, old(Count()), limit).value
      ensures ok ==> Built(storage, w.storage, [], w.address)
      ensures ok ==> Covered(TreeOf(S(), storage), S(), idx + 1, old(|storages|))
      ensures ok ==> idx == old(|accounts|) && |accounts| == idx + 1 && accountPlace[idx].None?
      ensures ok ==> accounts[idx].address == w.address && accounts[idx].orig == w.account
      decreases w, 1
    {
      ghost var s := S();
      idx := AddRow(w.address, w.account);
      ghost var s1 := S();
      ok, storage := BuildNode(w.storage, Storage, [], w.address);
      if ok { ExtendsTrans(s, s1, S()); }
    }

    /** A row whose leaf is still to be built. */
    method AddRow(address: int, account: Account) returns (idx: nat)
      requires Ready()
      modifies this
      ensures Ready() && Extends(old(S()), S()) && Count() == old(Count())
      ensures idx == old(|accounts|) < |accounts| && accountPlace[idx].None?
      ensures accounts[idx].address == address && accounts[idx].orig == account
      ensures |accounts| == old(|accounts|) + 1 && storages == old(storages)
    {
      idx := |accounts|;
      var row := AccountRow(address, [], account, account, EmptyC, EmptyR);
      AddAccountOk(S(), row, short);
      accounts, accountPlace := accounts + [row], accountPlace + [None];
      assert S() == AddAccount(old(S()), row);
    }

    method BuildStorageLeaf(w: Wit, walked: Path, owner: int) returns (ok: bool, c: Child)
      requires Ready() && w.StorageLeafOp?
      modifies this
      ensures ok <==> Lawful(w, walked, hash)
      ensures ok ==> Ready() && Extends(old(S()), S()) && Count() == old(Count())
      ensures ok ==> Built(c, w, walked, owner) && c.StorageC?
      ensures ok ==> Covered(TreeOf(S(), c), S(), |accounts|, old(|storages|))
      ensures accounts == old(accounts) && accountPlace == old(accountPlace)
    {
      var key := walked + w.suffix;
      if |key| != KEY_NIBBLES || hash(w.position) != key { return false, EmptyC; }
      var idx := |storages|;
      var r := if w.slotValue == 0 then EmptyR else StorageLeafR(key[|walked|..], idx);
      var row := SlotRow(owner, w.position, key, w.slotValue, w.slotValue, r);
      ghost var s := S();
      SlotLeafOk(w, s, row, walked, owner, short, hash);
      storages, slotPlace := storages + [row], slotPlace + [Place(SlotT(key, idx), walked)];
      assert S() == AddSlot(s, row, walked);
      return true, StorageC(idx);
    }

    /** A node known only by its hash, or a leaf off the path. */
    method BuildOpaque(w: Wit, ghost walked: Path, ghost owner: int) returns (ok: bool, c: Child)
      requires Ready() && (w.HashOp? || w.ExtensionHashOp? || w.PhantomLeafOp?)
      modifies this
      ensures ok <==> old(Count()) < limit
      ensures ok ==> Ready() && Extends(old(S()), S()) && Count() == old(Count()) + 1
      ensures ok ==> Built(c, w, walked, owner) && !c.ChainC?
      ensures ok ==> Covered(TreeOf(S(), c), S(), |accounts|, |storages|)
      ensures accounts == old(accounts) && accountPlace == old(accountPlace) && storages == old(storages)
    {
      var idx;
      match w
      case HashOp(h) =>
        ok, idx := AuxEmplace(HashR(h));
        c := HashC(idx);
      case ExtensionHashOp(p, h) =>
        ok, idx := AuxEmplace(ExtR(p, h));
        c := ExtensionHashC(idx);
      case PhantomLeafOp(p, v) =>
        ok, idx := AuxEmplace(PhantomLeafR(p, v));
        c := PhantomLeafC(idx);
    }

    /** Materialize one witness node and its subtree.  It halts exactly when a check
        fails or the nodes pass the declared limit; otherwise the arrays hold the
        witness's tree, and every cached result is its reduction. */
    method BuildNode(w: Wit, kind: Kind, walked: Path, owner: int) returns (ok: bool, c: Child)
      requires Ready() && WellFormed(w, kind)
      modifies this
      ensures ok <==> Lawful(w, walked, hash) && Tally(w, old(Count()), limit).Some?
      ensures ok ==> Ready() && Extends(old(S()), S()) && Count() == Tally(w, old(Count()), limit).value
      ensures ok ==> Built(c, w, walked, owner) && Covered(TreeOf(S(), c), S(), old(|accounts|), old(|storages|))
      ensures ok && c.ChainC? ==> c.idx >= old(|chains|) && Unlinked(S(), c)
      ensures ok && kind == Storage ==> accounts == old(accounts) && accountPlace == old(accountPlace)
      decreases w, 3
    {
      ok, c := true, EmptyC;
      match w
      case EmptyOp =>
      case HashOp(_) => ok, c := BuildOpaque(w, walked, owner);
      case ExtensionHashOp(_, _) => ok, c := BuildOpaque(w, walked, owner);
      case PhantomLeafOp(_, _) => ok, c := BuildOpaque(w, walked, owner);
      case AccountLeafOp(_, _, _, _) => ok, c := BuildAccountLeaf(w, walked);
      case StorageLeafOp(_, _, _) => ok, c := BuildStorageLeaf(w, walked, owner);
      case BranchOp(_) => ok, c := BuildBranch(w, kind, walked, owner);
    }

    // ----- execution: current values ------------------------------------------------------

    method SetSlot(i: nat, v: int)
      requires Sound(S()) && i < |storages|
      modifies this`storages
      ensures storages == old(storages)[i := old(storages)[i].(cur := v)]
      ensures Sound(S()) && Originals(S()) == Originals(old(S()))
      ensures Fresh(old(S()), short) ==> Fresh(S(), short)
      ensures forall c, w, walked, owner :: old(Built(c, w, walked, owner)) ==>
                Built(c, w, walked, owner) && TreeOf(S(), c) == TreeOf(old(S()), c)
    {
      ghost var s := S();
      storages := storages[i := storages[i].(cur := v)];
      CurrentsOnly(s, S(), short);
      AllBuiltKept(s, S(), short);
    }

    method SetAccount(i: nat, a: Account)
      requires Sound(S()) && i < |accounts|
      modifies this`accounts
      ensures accounts == old(accounts)[i := old(accounts)[i].(cur := a)]
      ensures Sound(S()) && Originals(S()) == Originals(old(S()))
      ensures Fresh(old(S()), short) ==> Fresh(S(), short)
      ensures forall c, w, walked, owner :: old(Built(c, w, walked, owner)) ==>
                Built(c, w, walked, owner) && TreeOf(S(), c) == TreeOf(old(S()), c)
    {
      ghost var s := S();
      accounts := accounts[i := accounts[i].(cur := a)];
      CurrentsOnly(s, S(), short);
      AllBuiltKept(s, S(), short);
    }

    // ----- the eval pass --------------------------------------------------------------------

    ghost predicate Mid()
      reads this
    {
      Sound(S()) && Half(S(), short)
    }

    predicate Fixed(c: Child) {
      c.EmptyC? || c.HashC? || c.ExtensionHashC? || c.PhantomLeafC? || c.PoolHashC?
    }

    /** Walk one node against the current values: its new result, and whether nothing
        below it changed. */
    method EvalNode(c: Child, depth: nat) returns (ok: bool, r: NodeR, ro: bool)
      requires Mid() && Known(S(), c) && (Stored(c) ==> |AtOf(S(), c)| == depth)
      modifies this
      ensures Mid() && SameShape(old(S()), S()) && Settles(old(S()), S(), short) && Known(S(), c)
      ensures ok <==> NodeGuard(S(), c, short)
      ensures ok ==> r == ResultOf(S(), c) && Settled(S(), c, short)
      ensures ok ==> (ro <==> Same(TreeOf(S(), c), Originals(S()), Currents(S())))
      decreases TreeOf(S(), c), 2
    {
      ghost var s0 := S();
      assert NodeOk(s0, c);
      ok, r, ro := true, EmptyR, true;
      match c
      case EmptyC =>
      case PoolHashC(h) => r := HashR(h);
      case HashC(i) => r := aux[i];
      case ExtensionHashC(i) => r := aux[i];
      case PhantomLeafC(i) => r := aux[i];
      case StorageC(i) =>
        var row := storages[i];
        r := if row.cur == 0 then EmptyR else StorageLeafR(row.posHash[depth..], i);
        assert LeafValue(TreeOf(s0, c), Currents(s0), short).None? <==> row.cur == 0;
        assert r == Red(s0, c, Currents(s0), short);
        SetCachedOk(s0, c, short);
        storages := storages[i := row.(cached := r)];
        ro := row.orig == row.cur;
      case AccountC(i) => ok, r, ro := EvalAccount(c, depth);
      case ChainC(i) => ok, r, ro := EvalChain(c, depth);
      case BranchC(i) => ok, r, ro := EvalBranch(c, depth);
    }

    method EvalAccount(c: Child, depth: nat) returns (ok: bool, r: NodeR, ro: bool)
      requires Mid() && Known(S(), c) && c.AccountC? && |AtOf(S(), c)| == depth
      modifies this
      ensures Mid() && SameShape(old(S()), S()) && Settles(old(S()), S(), short) && Known(S(), c)
      ensures ok <==> NodeGuard(S(), c, short)
      ensures ok ==> r == ResultOf(S(), c) && Settled(S(), c, short)
      ensures ok ==> (ro <==> Same(TreeOf(S(), c), Originals(S()), Currents(S())))
      decreases TreeOf(S(), c), 0
    {
      ghost var s0 := S();
      assert NodeOk(s0, c);
      var i := c.idx;
      var storageRo;
      r := EmptyR;
      ok, r, storageRo := EvalNode(accounts[i].storageChild, 0);
      ghost var s1 := S();
      ShapeKeeps(s0, s1);
      if !ok { return false, r, false; }
      var root := Finalize(r, ValuesOf(Current));
      var row := accounts[i];
      r := if row.cur == EMPTY_ACCOUNT then EmptyR else AccountLeafR(row.addrHash[depth..], i, root);
      assert LeafValue(TreeOf(s1, c), Currents(s1), short).None? <==> row.cur == EMPTY_ACCOUNT;
      assert r == Red(s1, c, Currents(s1), short);
      SetCachedOk(s1, c, short);
      accounts := accounts[i := row.(cached := r)];
      ShapeKeeps(s1, S());
      SettlesTrans(s0, s1, S(), short);
      ro := row.orig == row.cur && storageRo;
    }

    method EvalChain(c: Child, depth: nat) returns (ok: bool, r: NodeR, ro: bool)
      requires Mid() && Known(S(), c) && c.ChainC? && |AtOf(S(), c)| == depth
      modifies this
      ensures Mid() && SameShape(old(S()), S()) && Settles(old(S()), S(), short) && Known(S(), c)
      ensures ok <==> NodeGuard(S(), c, short)
      ensures ok ==> r == ResultOf(S(), c) && Settled(S(), c, short)
      ensures ok ==> (ro <==> Same(TreeOf(S(), c), Originals(S()), Currents(S())))
      decreases TreeOf(S(), c), 0
    {
      ghost var s0 := S();
      var ch := chains[c.idx];
      ChainFacts(s0, c, short);
      if Fixed(ch.child) {
        FixedDone(s0, ch.child, short);
        UnchangedSettled(s0, c, short);
        return true, ch.cached, true;  // a fixed child
      }
      var childRes;
      ok, childRes, ro := EvalNode(ch.child, depth + |ch.prefix|);
      ghost var s1 := S();
      ShapeKeeps(s0, s1);
      ChainFacts(s1, c, short);
      if !ok { return false, childRes, false; }
      if ro {
        UnchangedSettled(s1, c, short);
        return true, chains[c.idx].cached, true;
      }
      r := CloseChain(c);
      SettlesTrans(s0, s1, S(), short);
    }

    /** Refold a chain whose child is done. */
    method CloseChain(c: Child) returns (r: NodeR)
      requires Mid() && Known(S(), c) && c.ChainC?
      requires ChildDone(S(), chains[c.idx].child, short)
      modifies this`chains
      ensures Mid() && SameShape(old(S()), S()) && Settles(old(S()), S(), short) && Known(S(), c)
      ensures NodeGuard(S(), c, short) && r == ResultOf(S(), c) && Settled(S(), c, short)
      ensures Same(TreeOf(S(), c), Originals(S()), Currents(S())) ==
              Same(TreeOf(old(S()), c), Originals(old(S())), Currents(old(S())))
    {
      ghost var s := S();
      ChainFacts(s, c, short);
      r := ChainResult(chains[c.idx].child, chains[c.idx].prefix);
      SetCachedOk(s, c, short);
      chains := chains[c.idx := chains[c.idx].(cached := r)];
      assert S() == SetCached(s, c, r);
      ShapeKeeps(s, S());
    }

    /** Re-evaluate one branch child, unless it cannot change. */
    method EvalChild(child: Child, tag: Tag, depth: nat) returns (ok: bool, ro: bool)
      requires Mid() && Known(S(), child) && (Stored(child) ==> |AtOf(S(), child)| == depth)
      requires !tag.NodeTag? ==> Fixed(child)
      modifies this
      ensures Mid() && SameShape(old(S()), S()) && Settles(old(S()), S(), short) && Known(S(), child)
      ensures ok <==> NodeGuard(S(), child, short)
      ensures ok ==> ChildDone(S(), child, short)
      ensures ok ==> (ro <==> Same(TreeOf(S(), child), Originals(S()), Currents(S())))
      decreases TreeOf(S(), child), 3
    {
      if tag.NodeTag? && !Fixed(child) {
        var childRes;
        ok, childRes, ro := EvalNode(child, depth);
      } else {
        FixedDone(S(), child, short);
        ok, ro := true, true;
      }
    }

    /** Re-evaluate the children of a branch that can change. */
    method EvalChildren(c: Child, depth: nat) returns (ok: bool, ro: bool)
      requires Mid() && Known(S(), c) && c.BranchC? && |AtOf(S(), c)| == depth
      modifies this
      ensures Mid() && SameShape(old(S()), S()) && Settles(old(S()), S(), short) && Known(S(), c)
      ensures !ok ==> !NodeGuard(S(), c, short)
      ensures ok ==> BranchDone(S(), c, short)
      ensures ok ==> (ro <==> Same(TreeOf(S(), c), Originals(S()), Currents(S())))
      decreases TreeOf(S(), c), 0
    {
      ghost var s0 := S();
      assert NodeOk(s0, c);
      var children, tags := branches[c.idx].children, branches[c.idx].tags;
      ghost var t := TreeOf(s0, c);
      ok, ro := true, true;
      for n := 0 to 16
        invariant Mid() && SameShape(s0, S()) && Settles(s0, S(), short)
        invariant DoneBelow(S(), children, n, short)
        invariant ro <==> SameBelow(t.children, n, Originals(s0), Currents(s0))
      {
        var k: Nibble := n;
        ghost var s := S();
        ChildAt(s0, s, c, k, depth);
        var childRo;
        ok, childRo := EvalChild(children[k], tags[k], depth + 1);
        SettlesTrans(s0, s, S(), short);
        ChildAt(s0, S(), c, k, depth);
        if !ok {
          GuardFails(S(), c, k, short);
          return false, false;
        }
        DoneKept(s, S(), children, n, short);
        ro := childRo && ro;
      }
      AllDone(s0, S(), c, short);
    }

    method EvalBranch(c: Child, depth: nat) returns (ok: bool, r: NodeR, ro: bool)
      requires Mid() && Known(S(), c) && c.BranchC? && |AtOf(S(), c)| == depth
      modifies this
      ensures Mid() && SameShape(old(S()), S()) && Settles(old(S()), S(), short) && Known(S(), c)
      ensures ok <==> NodeGuard(S(), c, short)
      ensures ok ==> r == ResultOf(S(), c) && Settled(S(), c, short)
      ensures ok ==> (ro <==> Same(TreeOf(S(), c), Originals(S()), Currents(S())))
      decreases TreeOf(S(), c), 1
    {
      r := EmptyR;
      ok, ro := EvalChildren(c, depth);
      if !ok { return false, r, false; }
      if ro {
        ChildrenDone(S(), c, short);
        UnchangedSettled(S(), c, short);
        return true, branches[c.idx].cached, true;
      }
      ghost var s := S();
      ok, r := CloseEval(c);
      if ok { SettlesTrans(old(S()), s, S(), short); }
    }

    /** Recompute a branch whose children are done and not all unchanged. */
    method CloseEval(c: Child) returns (ok: bool, r: NodeR)
      requires Mid() && Known(S(), c) && c.BranchC? && BranchDone(S(), c, short)
      requires !Same(TreeOf(S(), c), Originals(S()), Currents(S()))
      modifies this`branches
      ensures ok <==> NodeGuard(old(S()), c, short)
      ensures !ok ==> S() == old(S())
      ensures ok ==> Mid() && SameShape(old(S()), S()) && Settles(old(S()), S(), short) && Known(S(), c)
      ensures ok ==> NodeGuard(S(), c, short) && r == ResultOf(S(), c) && Settled(S(), c, short)
    {
      ghost var s := S();
      var bn := branches[c.idx];
      BranchInRange(c);
      ok, r := ReduceBranch(bn.children, bn.tags, Current);
      BranchRecomputed(s, c, Results(bn.children), short);
      if ok {
        branches := branches[c.idx := bn.(cached := r)];
        assert S() == SetCached(s, c, r);
      }
    }

    // ----- the two roots -----------------------------------------------------------------------

    /** The build pass over a whole witness: its node, and the old root. */
    method ReadWitness(w: Wit) returns (ok: bool, root: Child, oldRoot: Hash)
      requires Ready() && WellFormed(w, State) && Count() == 0 && accounts == [] && storages == []
      modifies this
      ensures ok <==> Lawful(w, [], hash) && Tally(w, 0, limit).Some?
      ensures ok ==> Ready() && Built(root, w, [], 0) && Count() == Tally(w, 0, limit).value <= limit
      ensures ok ==> Covered(TreeOf(S(), root), S(), 0, 0)
      ensures ok ==> oldRoot == Finalize(Reduce(TreeOf(S(), root), Originals(S()), [], short), Originals(S()))
    {
      ok, root := BuildNode(w, State, [], 0);
      oldRoot := EmptyTrieRoot;
      if ok {
        assert ResultOf(S(), root) == Red(S(), root, Originals(S()), short);
        oldRoot := Finalize(ResultPtr(root), ValuesOf(Original));
      }
    }

    /** The eval pass: the root of the cache-free reduction over the current values. */
    method CalculateNewStateRoot(root: Child) returns (ok: bool, newRoot: Hash)
      requires Sound(S()) && Fresh(S(), short) && Known(S(), root)
      requires (Stored(root) ==> AtOf(S(), root) == []) && Shaped(TreeOf(S(), root), [])
      modifies this
      ensures SameShape(old(S()), S())
      ensures ok <==> GuardPasses(TreeOf(old(S()), root), Originals(old(S())), Currents(old(S())), [], short)
      ensures ok ==> newRoot == Finalize(Reduce(TreeOf(old(S()), root), Currents(old(S())), [], short), Currents(old(S())))
    {
      ghost var s := S();
      var r, ro;
      ok, r, ro := EvalNode(root, 0);
      ShapeKeeps(s, S());
      newRoot := Finalize(r, ValuesOf(Current));
    }

    /** If the old root is the true pre-state's, the new root is the true post-state's if
        and only if no extension without nibbles has got a sibling. */
    lemma NewRootSound(root: Child, w: Wit, pre: World, post: World)
      requires Sound(S()) && WellFormed(w, State) && Built(root, w, [], 0)
      requires var t, v, v' := TreeOf(S(), root), Originals(S()), Currents(S());
               && GuardPasses(t, v, v', [], short)
               && Finalize(Reduce(t, v, [], short), v) == StateRootOf(pre, short)
               && WorldUpdated(pre, post, t, v')
      ensures var t, v' := TreeOf(S(), root), Currents(S());
              && (Finalize(Reduce(t, v', [], short), v') == StateRootOf(post, short) <==>
                  EmptyAlone(t, v', [], short) && StoragesAlone(t, v', [], short))
              && (NibblesGiven(w) ==> Finalize(Reduce(t, v', [], short), v') == StateRootOf(post, short))
    {
      var t, v, v' := TreeOf(S(), root), Originals(S()), Currents(S());
      SpelledTree(t, w, State, [], 0, S());
      GuardFolds(t, v, v', [], short);
      StatelessRootSound(t, pre, post, v, v', short);
      if NibblesGiven(w) { RealAlone(t, v', [], short); }
    }

    lemma BranchInRange(c: Child)
      requires Sound(S()) && Known(S(), c) && c.BranchC?
      ensures var b := branches[c.idx];
              && |b.children| == 16 && |b.tags| == 16
              && forall k: Nibble :: InRange(b.children[k]) && (b.children[k].PoolHashC? <==> b.tags[k].HashTag?)
    {
      assert NodeOk(S(), c);
      var b := branches[c.idx];
      forall k: Nibble ensures InRange(b.children[k]) && (b.children[k].PoolHashC? <==> b.tags[k].HashTag?) {
        assert ChildOk(S(), b.children[k], b.tags[k], TreeOf(S(), c).children[k], AtOf(S(), c) + [k]);
      }
    }
  }

  /** A chain against its child: same changes, same guard, and the fold of its result. */
  lemma ChainFacts(s: Store, c: Child, short: Encoding)
    requires Sound(s) && Known(s, c) && c.ChainC?
    ensures var ch := s.chains[c.idx];
            && Known(s, ch.child) && TreeOf(s, ch.child) < TreeOf(s, c)
            && (Stored(ch.child) ==> |AtOf(s, ch.child)| == |AtOf(s, c)| + |ch.prefix|)
            && (Same(TreeOf(s, c), Originals(s), Currents(s)) <==> Same(TreeOf(s, ch.child), Originals(s), Currents(s)))
            && (NodeGuard(s, c, short) <==> NodeGuard(s, ch.child, short))
            && NodeOk(s, c) && NodeOk(s, ch.child)
            && Red(s, c, Currents(s), short) == FoldAll(ch.prefix, Red(s, ch.child, Currents(s), short))
  {
    assert NodeOk(s, c);
    var ch, at := s.chains[c.idx], AtOf(s, c);
    var inner := TreeOf(s, ch.child);
    assert NodeOk(s, ch.child);
    NestGrows(ch.prefix, inner);
    NestSame(ch.prefix, inner, Originals(s), Currents(s));
    NestGuard(ch.prefix, inner, Originals(s), Currents(s), at, short);
    NestReduces(ch.prefix, inner, Currents(s), at, short);
  }

  ghost predicate BranchDone(s: Store, c: Child, short: Encoding)
    requires Sound(s) && Known(s, c) && c.BranchC?
  {
    && |s.branches[c.idx].children| == 16
    && forall k: Nibble :: ChildDone(s, s.branches[c.idx].children[k], short)
  }

  /** A branch's child, seen from a later state of the pass. */
  lemma ChildAt(s: Store, s': Store, c: Child, k: Nibble, depth: nat)
    requires Sound(s) && Known(s, c) && c.BranchC? && NodeOk(s, c) && |AtOf(s, c)| == depth && SameShape(s, s')
    ensures Sound(s') && Known(s', c) && NodeOk(s', c) && Originals(s') == Originals(s) && Currents(s') == Currents(s)
    ensures var b, t := s.branches[c.idx], TreeOf(s, c);
            && s'.branches[c.idx].children == b.children && Known(s', b.children[k])
            && TreeOf(s', b.children[k]) == t.children[k] && t.children[k] < t
            && (Stored(b.children[k]) ==> |AtOf(s', b.children[k])| == depth + 1)
            && (!b.tags[k].NodeTag? ==> !Stored(b.children[k]))
  {
    ShapeKeeps(s, s');
    var b, t := s.branches[c.idx], TreeOf(s, c);
    assert ChildOk(s, b.children[k], b.tags[k], t.children[k], AtOf(s, c) + [k]);
  }

  lemma GuardFails(s: Store, c: Child, k: Nibble, short: Encoding)
    requires Sound(s) && Known(s, c) && c.BranchC? && |s.branches[c.idx].children| == 16
    requires Known(s, s.branches[c.idx].children[k]) && !NodeGuard(s, s.branches[c.idx].children[k], short)
    ensures !NodeGuard(s, c, short)
  {
    assert NodeOk(s, c);
    var b, t, at := s.branches[c.idx], TreeOf(s, c), AtOf(s, c);
    assert ChildOk(s, b.children[k], b.tags[k], t.children[k], at + [k]);
    assert NodeOk(s, b.children[k]);
    assert !GuardPasses(t.children[k], Originals(s), Currents(s), at + [k], short);
  }

  lemma FixedDone(s: Store, c: Child, short: Encoding)
    requires Sound(s) && Half(s, short) && Known(s, c) && !Stored(c)
    ensures ChildDone(s, c, short)
    ensures Same(TreeOf(s, c), Originals(s), Currents(s))
  {
    assert NodeOk(s, c);
    UnchangedSettled(s, c, short);
  }

  ghost predicate DoneBelow(s: Store, children: seq<Child>, n: nat, short: Encoding)
    requires Sound(s) && n <= |children|
  {
    forall k :: 0 <= k < n ==> ChildDone(s, children[k], short)
  }

  predicate SameBelow(ts: seq<Tree>, n: nat, v: Values, v': Values)
    requires n <= |ts|
  {
    forall k :: 0 <= k < n ==> Same(ts[k], v, v')
  }

  lemma DoneKept(s: Store, s': Store, children: seq<Child>, n: nat, short: Encoding)
    requires Sound(s) && SameShape(s, s') && Sound(s') && Settles(s, s', short) && n < |children|
    requires DoneBelow(s, children, n, short) && ChildDone(s', children[n], short)
    ensures DoneBelow(s', children, n + 1, short)
  {
    ShapeKeeps(s, s');
    forall k | 0 <= k < n ensures ChildDone(s', children[k], short) {
      assert ChildDone(s, children[k], short);
    }
  }

  lemma AllDone(s: Store, s': Store, c: Child, short: Encoding)
    requires Sound(s) && Known(s, c) && c.BranchC? && NodeOk(s, c) && SameShape(s, s') && Sound(s')
    requires DoneBelow(s', s.branches[c.idx].children, 16, short)
    ensures Known(s', c) && BranchDone(s', c, short)
    ensures SameBelow(TreeOf(s, c).children, 16, Originals(s), Currents(s)) <==>
            Same(TreeOf(s', c), Originals(s'), Currents(s'))
  {
    ShapeKeeps(s, s');
  }

  ghost predicate ChildDone(s: Store, c: Child, short: Encoding)
    requires Sound(s)
  {
    && Known(s, c) && Settled(s, c, short) && NodeGuard(s, c, short)
  }

  /** The children of a branch whose slots are all re-evaluated. */
  lemma ChildrenDone(s: Store, c: Child, short: Encoding)
    requires Sound(s) && Known(s, c) && c.BranchC? && BranchDone(s, c, short)
    ensures NodeOk(s, c)
    ensures forall k: Nibble ::
              && ChildResults(TreeOf(s, c), Currents(s), AtOf(s, c), short)[k] == ResultOf(s, s.branches[c.idx].children[k])
              && GuardPasses(TreeOf(s, c).children[k], Originals(s), Currents(s), AtOf(s, c) + [k], short)
  {
    assert NodeOk(s, c);
    var b, t, at := s.branches[c.idx], TreeOf(s, c), AtOf(s, c);
    forall k: Nibble
      ensures ChildResults(t, Currents(s), at, short)[k] == ResultOf(s, b.children[k])
      ensures GuardPasses(t.children[k], Originals(s), Currents(s), at + [k], short)
    {
      assert ChildOk(s, b.children[k], b.tags[k], t.children[k], at + [k]);
      assert ChildDone(s, b.children[k], short);
    }
  }

  /** The guard on one branch, over its nodes or over its tree. */
  lemma BranchGuard(s: Store, c: Child, rs: seq<NodeR>, short: Encoding)
    requires Sound(s) && Known(s, c) && c.BranchC? && NodeOk(s, c) && |rs| == 16
    requires var b, t, at := s.branches[c.idx], TreeOf(s, c), AtOf(s, c);
             && rs == ChildResults(t, Currents(s), at, short)
             && !Same(t, Originals(s), Currents(s))
             && forall k: Nibble :: GuardPasses(t.children[k], Originals(s), Currents(s), at + [k], short)
    ensures var b := s.branches[c.idx];
            NodeGuard(s, c, short) <==>
            !((exists k: Nibble :: OnlyLive(rs, k) && (b.children[k].PoolHashC? || b.children[k].HashC?)) &&
              (exists i: Nibble, j: Nibble :: i < j && b.children[i] != EmptyC && b.children[j] != EmptyC))
    ensures Branched(rs, Currents(s), short) == Red(s, c, Currents(s), short)
  {
    var b, t, at := s.branches[c.idx], TreeOf(s, c), AtOf(s, c);
    forall k: Nibble
      ensures t.children[k].HashT? <==> b.children[k].PoolHashC? || b.children[k].HashC?
      ensures t.children[k].EmptyT? <==> b.children[k] == EmptyC
    {
      assert ChildOk(s, b.children[k], b.tags[k], t.children[k], at + [k]);
      assert NodeOk(s, b.children[k]);
      if b.children[k].ChainC? {
        var ch := s.chains[b.children[k].idx];
        assert Nest(ch.prefix, TreeOf(s, ch.child)).BranchT?;
      }
    }
    if TwoAnnounced(t.children) {
      var i, j :| 0 <= i < j < 16 && !t.children[i].EmptyT? && !t.children[j].EmptyT?;
      var i', j': Nibble := i, j;
      assert i' < j' && b.children[i'] != EmptyC && b.children[j'] != EmptyC;
    }
  }

  /** A branch over done children, recomputed. */
  lemma BranchRecomputed(s: Store, c: Child, rs: seq<NodeR>, short: Encoding)
    requires Sound(s) && Half(s, short) && Known(s, c) && c.BranchC? && BranchDone(s, c, short) && |rs| == 16
    requires !Same(TreeOf(s, c), Originals(s), Currents(s))
    requires forall k: Nibble ::
               var d := s.branches[c.idx].children[k]; Known(s, d) && rs[k] == ResultOf(s, d)
    ensures var b := s.branches[c.idx];
            NodeGuard(s, c, short) <==>
            !((exists k: Nibble :: OnlyLive(rs, k) && (b.children[k].PoolHashC? || b.children[k].HashC?)) &&
              (exists i: Nibble, j: Nibble :: i < j && b.children[i] != EmptyC && b.children[j] != EmptyC))
    ensures var s' := SetCached(s, c, Branched(rs, Currents(s), short));
            && SameShape(s, s') && Sound(s') && Half(s', short) && Settles(s, s', short) && Known(s', c)
            && Settled(s', c, short) && (NodeGuard(s', c, short) <==> NodeGuard(s, c, short))
  {
    ChildrenDone(s, c, short);
    assert rs == ChildResults(TreeOf(s, c), Currents(s), AtOf(s, c), short);
    BranchGuard(s, c, rs, short);
    SetCachedOk(s, c, short);
    ShapeKeeps(s, SetCached(s, c, Branched(rs, Currents(s), short)));
  }

  /** The guard passes everywhere below a node. */
  ghost predicate NodeGuard(s: Store, c: Child, short: Encoding)
    requires Sound(s) && Known(s, c)
  {
    NodeOk(s, c) && GuardPasses(TreeOf(s, c), Originals(s), Currents(s), if Stored(c) then AtOf(s, c) else [], short)
  }

  /** Changing current values alone keeps the arrays sound and fresh. */
  lemma CurrentsOnly(s: Store, s': Store, short: Encoding)
    requires Sound(s) && Aligned(s')
    requires s' == s.(accounts := s'.accounts, storages := s'.storages)
    requires forall i :: 0 <= i < |s.accounts| ==> s'.accounts[i] == s.accounts[i].(cur := s'.accounts[i].cur)
    requires forall i :: 0 <= i < |s.storages| ==> s'.storages[i] == s.storages[i].(cur := s'.storages[i].cur)
    ensures Sound(s') && Originals(s') == Originals(s) && (Fresh(s, short) ==> Fresh(s', short))
  {
    assert Originals(s') == Originals(s);
    assert SameLinks(s, s');
    LinksKept(s, s');
    if Fresh(s, short) {
      forall c: Child | Known(s', c) ensures ResultOf(s', c) == Red(s', c, Originals(s'), short) {
        assert Known(s, c) && ResultOf(s, c) == Red(s, c, Originals(s), short);
      }
    }
  }

  /** What a node was built for depends on keys and block-start values only. */
  lemma BuiltKept(s: Store, s': Store, c: Child, w: Wit, walked: Path, owner: int, short: Encoding)
    requires NodeBuilt(s, c, w, walked, owner, short) && Aligned(s') && SameLinks(s, s')
    requires RowsKept(s, s') && Originals(s') == Originals(s)
    ensures NodeBuilt(s', c, w, walked, owner, short) && TreeOf(s', c) == TreeOf(s, c)
  {
    SameLinksNode(s, s', c);
    SpellsMore(TreeOf(s, c), w, walked, owner, s, s');
  }

  lemma AllBuiltKept(s: Store, s': Store, short: Encoding)
    requires Aligned(s') && SameLinks(s, s') && RowsKept(s, s') && Originals(s') == Originals(s)
    ensures forall c, w, walked, owner :: NodeBuilt(s, c, w, walked, owner, short) ==>
              NodeBuilt(s', c, w, walked, owner, short) && TreeOf(s', c) == TreeOf(s, c)
  {
    forall c, w, walked, owner | NodeBuilt(s, c, w, walked, owner, short)
      ensures NodeBuilt(s', c, w, walked, owner, short) && TreeOf(s', c) == TreeOf(s, c)
    {
      BuiltKept(s, s', c, w, walked, owner, short);
    }
  }

  lemma OnlyOne(rs: seq<NodeR>, k: Nibble)
    requires |rs| == 16 && OnlyLive(rs, k)
    ensures forall j: Nibble :: OnlyLive(rs, j) ==> j == k
  {
    assert k in Live(rs);
  }
}
