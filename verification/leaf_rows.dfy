/** The tables are the leaves: after an accepted build every row is found at the hash of
    its key, and nothing else is found. */
module LeafRows {
  import opened Basics
  import opened TrieTerms
  import opened TrieReduce
  import opened TrieSoundness
  import opened TrieWitness
  import opened StateStore
  import opened StateRootEngine

  /** The leaf at the hash of `a` is that of row `i`. */
  ghost predicate AccountFound(t: Tree, hash: KeyHash, a: int, i: nat)
    requires Shaped(t, [])
  {
    var leaf := Lookup(t, hash(a), []);
    leaf.Some? && leaf.value.AccountT? && leaf.value.idx == i
  }

  /** In the storage trie of `a`, the leaf at the hash of `p` is that of row `j`. */
  ghost predicate SlotFound(t: Tree, hash: KeyHash, a: int, p: int, j: nat)
    requires Shaped(t, [])
  {
    var leaf := Lookup(t, hash(a), []);
    && leaf.Some? && leaf.value.AccountT?
    && var slot := Lookup(leaf.value.storage, hash(p), []);
       slot.Some? && slot.value.SlotT? && slot.value.idx == j
  }

  /** Every row is found at its own hash, in the storage trie of its owner if it is a slot,
      and every key that leads to a leaf is the hash of that row's key. */
  ghost predicate OneLeafPerRow(s: Store, t: Tree, hash: KeyHash)
    requires Shaped(t, [])
  {
    && (forall i :: 0 <= i < |s.accounts| ==> AccountFound(t, hash, s.accounts[i].address, i))
    && (forall j :: 0 <= j < |s.storages| ==> SlotFound(t, hash, s.storages[j].owner, s.storages[j].position, j))
    && (forall k :: AccountAtHash(s, t, hash, k))
    && (forall k, q :: SlotAtHash(s, t, hash, k, q))
  }

  ghost predicate AccountAtHash(s: Store, t: Tree, hash: KeyHash, k: Path)
    requires Shaped(t, [])
  {
    var leaf := Lookup(t, k, []);
    leaf.Some? && leaf.value.AccountT? ==> leaf.value.idx < |s.accounts| && k == hash(s.accounts[leaf.value.idx].address)
  }

  ghost predicate SlotAtHash(s: Store, t: Tree, hash: KeyHash, k: Path, q: Path)
    requires Shaped(t, [])
  {
    var leaf := Lookup(t, k, []);
    leaf.Some? && leaf.value.AccountT? ==>
      var slot := Lookup(leaf.value.storage, q, []);
      slot.Some? && slot.value.SlotT? ==>
        var j := slot.value.idx;
        j < |s.storages| && k == hash(s.storages[j].owner) && q == hash(s.storages[j].position)
  }

  // ----- one leaf ------------------------------------------------------------------------------------

  lemma Rest(at: Path, k: Nibble, key: Path)
    requires at + [k] <= key
    ensures at <= key && key[|at|..] != [] && key[|at|..][0] == k && key[|at|..][1..] == key[|at + [k]|..]
  {
  }

  /** A leaf held by the tree is found at its key, and a lawful key is the row's hash. */
  lemma {:induction false} AccountHeld(t: Tree, w: Wit, at: Path, owner: int, s: Store, hash: KeyHash, i: nat)
    returns (storage: Wit)
    requires Spells(t, w, at, owner, s) && Lawful(w, at, hash) && WellFormed(w, State) && Shaped(t, at)
    requires HoldsAccount(t, i)
    ensures i < |s.accounts| && at <= hash(s.accounts[i].address)
    ensures var leaf := Lookup(t, hash(s.accounts[i].address)[|at|..], at);
            && leaf.Some? && leaf.value.AccountT? && leaf.value.idx == i
            && Spells(leaf.value.storage, storage, [], s.accounts[i].address, s)
            && Lawful(storage, [], hash) && WellFormed(storage, Storage)
    decreases w
  {
    match w
    case AccountLeafOp(suffix, address, _, sub) =>
      storage := sub;
    case BranchOp(slots) =>
      var k: Nibble :| HoldsAccount(t.children[k], i);
      assert SpellsSlot(t.children[k], slots[k], at + [k], owner, s);
      storage := AccountHeld(t.children[k], slots[k].node, at + [k], owner, s, hash, i);
      Rest(at, k, hash(s.accounts[i].address));
  }

  lemma {:induction false} SlotHeld(t: Tree, w: Wit, at: Path, owner: int, s: Store, hash: KeyHash, j: nat)
    requires Spells(t, w, at, owner, s) && Lawful(w, at, hash) && WellFormed(w, Storage) && Shaped(t, at)
    requires HoldsSlot(t, j)
    ensures j < |s.storages| && s.storages[j].owner == owner && at <= hash(s.storages[j].position)
    ensures var leaf := Lookup(t, hash(s.storages[j].position)[|at|..], at);
            leaf.Some? && leaf.value.SlotT? && leaf.value.idx == j
    decreases w
  {
    match w
    case StorageLeafOp(suffix, position, _) =>
    case BranchOp(slots) =>
      var k: Nibble :| HoldsSlot(t.children[k], j);
      assert SpellsSlot(t.children[k], slots[k], at + [k], owner, s);
      SlotHeld(t.children[k], slots[k].node, at + [k], owner, s, hash, j);
      Rest(at, k, hash(s.storages[j].position));
  }

  /** A slot held below a state trie is held by the storage trie of some account. */
  lemma {:induction false} SlotBelow(t: Tree, w: Wit, at: Path, owner: int, s: Store, hash: KeyHash, j: nat)
    requires Spells(t, w, at, owner, s) && Lawful(w, at, hash) && WellFormed(w, State) && Shaped(t, at)
    requires HoldsSlot(t, j)
    ensures j < |s.storages| && at <= hash(s.storages[j].owner)
    ensures var leaf := Lookup(t, hash(s.storages[j].owner)[|at|..], at);
            && leaf.Some? && leaf.value.AccountT?
            && var slot := Lookup(leaf.value.storage, hash(s.storages[j].position), []);
               slot.Some? && slot.value.SlotT? && slot.value.idx == j
    decreases w
  {
    match w
    case AccountLeafOp(suffix, address, _, sub) =>
      SlotHeld(t.storage, sub, [], address, s, hash, j);
      assert hash(s.storages[j].position)[0..] == hash(s.storages[j].position);
    case BranchOp(slots) =>
      var k: Nibble :| HoldsSlot(t.children[k], j);
      assert SpellsSlot(t.children[k], slots[k], at + [k], owner, s);
      SlotBelow(t.children[k], slots[k].node, at + [k], owner, s, hash, j);
      Rest(at, k, hash(s.storages[j].owner));
  }

  /** A key that leads to a leaf is the hash of its row's key. */
  lemma {:induction false} AccountReached(t: Tree, w: Wit, at: Path, owner: int, s: Store, hash: KeyHash, k: Path)
    returns (storage: Wit)
    requires Spells(t, w, at, owner, s) && Lawful(w, at, hash) && WellFormed(w, State) && Shaped(t, at)
    requires Lookup(t, k, at).Some? && Lookup(t, k, at).value.AccountT?
    ensures var leaf := Lookup(t, k, at).value;
            && leaf.idx < |s.accounts| && at + k == hash(s.accounts[leaf.idx].address)
            && Spells(leaf.storage, storage, [], s.accounts[leaf.idx].address, s)
            && Lawful(storage, [], hash) && WellFormed(storage, Storage)
    decreases w
  {
    match w
    case AccountLeafOp(suffix, address, _, sub) =>
      storage := sub;
    case BranchOp(slots) =>
      var c := k[0];
      assert SpellsSlot(t.children[c], slots[c], at + [c], owner, s);
      storage := AccountReached(t.children[c], slots[c].node, at + [c], owner, s, hash, k[1..]);
      assert at + [c] + k[1..] == at + k;
  }

  lemma {:induction false} SlotReached(t: Tree, w: Wit, at: Path, owner: int, s: Store, hash: KeyHash, k: Path)
    requires Spells(t, w, at, owner, s) && Lawful(w, at, hash) && WellFormed(w, Storage) && Shaped(t, at)
    requires Lookup(t, k, at).Some? && Lookup(t, k, at).value.SlotT?
    ensures var j := Lookup(t, k, at).value.idx;
            j < |s.storages| && s.storages[j].owner == owner && at + k == hash(s.storages[j].position)
    decreases w
  {
    match w
    case StorageLeafOp(suffix, position, _) =>
    case BranchOp(slots) =>
      var c := k[0];
      assert SpellsSlot(t.children[c], slots[c], at + [c], owner, s);
      SlotReached(t.children[c], slots[c].node, at + [c], owner, s, hash, k[1..]);
      assert at + [c] + k[1..] == at + k;
  }

  // ----- all leaves ------------------------------------------------------------------------------------

  lemma RowFound(t: Tree, w: Wit, s: Store, hash: KeyHash, i: nat)
    requires Spells(t, w, [], 0, s) && Lawful(w, [], hash) && WellFormed(w, State) && Shaped(t, [])
    requires HoldsAccount(t, i)
    ensures i < |s.accounts| && AccountFound(t, hash, s.accounts[i].address, i)
  {
    var storage := AccountHeld(t, w, [], 0, s, hash, i);
    var key := hash(s.accounts[i].address);
    assert key[0..] == key;
  }

  lemma CellFound(t: Tree, w: Wit, s: Store, hash: KeyHash, j: nat)
    requires Spells(t, w, [], 0, s) && Lawful(w, [], hash) && WellFormed(w, State) && Shaped(t, [])
    requires HoldsSlot(t, j)
    ensures j < |s.storages| && SlotFound(t, hash, s.storages[j].owner, s.storages[j].position, j)
  {
    SlotBelow(t, w, [], 0, s, hash, j);
    var key := hash(s.storages[j].owner);
    assert key[0..] == key;
  }

  lemma KeyReached(t: Tree, w: Wit, s: Store, hash: KeyHash, k: Path, q: Path)
    requires Spells(t, w, [], 0, s) && Lawful(w, [], hash) && WellFormed(w, State) && Shaped(t, [])
    ensures AccountAtHash(s, t, hash, k) && SlotAtHash(s, t, hash, k, q)
  {
    var leaf := Lookup(t, k, []);
    if leaf.Some? && leaf.value.AccountT? {
      var storage := AccountReached(t, w, [], 0, s, hash, k);
      assert [] + k == k;
      var slot := Lookup(leaf.value.storage, q, []);
      if slot.Some? && slot.value.SlotT? {
        SlotReached(leaf.value.storage, storage, [], s.accounts[leaf.value.idx].address, s, hash, q);
        assert [] + q == q;
      }
    }
  }

  /** After an accepted build, the rows of the tables and the leaves of the tree are the
      same things. */
  lemma RowsAreLeaves(s: Store, root: Child, w: Wit, hash: KeyHash, short: Encoding)
    requires NodeBuilt(s, root, w, [], 0, short) && WellFormed(w, State) && Lawful(w, [], hash)
    requires Covered(TreeOf(s, root), s, 0, 0)
    ensures OneLeafPerRow(s, TreeOf(s, root), hash)
  {
    var t := TreeOf(s, root);
    forall i | 0 <= i < |s.accounts| ensures AccountFound(t, hash, s.accounts[i].address, i) {
      RowFound(t, w, s, hash, i);
    }
    forall j | 0 <= j < |s.storages| ensures SlotFound(t, hash, s.storages[j].owner, s.storages[j].position, j) {
      CellFound(t, w, s, hash, j);
    }
    forall k ensures AccountAtHash(s, t, hash, k) { KeyReached(t, w, s, hash, k, []); }
    forall k, q ensures SlotAtHash(s, t, hash, k, q) { KeyReached(t, w, s, hash, k, q); }
  }

  /** The leaf at the hash of an address is the row of an address with that hash. */
  lemma FoundAddress(s: Store, t: Tree, hash: KeyHash, a: int, i: nat)
    requires Shaped(t, []) && OneLeafPerRow(s, t, hash)
    ensures AccountFound(t, hash, a, i) <==> i < |s.accounts| && hash(s.accounts[i].address) == hash(a)
  {
    assert AccountAtHash(s, t, hash, hash(a));
    if i < |s.accounts| {
      assert AccountFound(t, hash, s.accounts[i].address, i);
    }
  }

  /** No address has two rows, and no position two rows below one address. */
  lemma KeysDistinct(s: Store, t: Tree, hash: KeyHash)
    requires Shaped(t, []) && OneLeafPerRow(s, t, hash)
    ensures forall i, j :: 0 <= i < j < |s.accounts| ==> s.accounts[i].address != s.accounts[j].address
    ensures forall i, j :: 0 <= i < j < |s.storages| && s.storages[i].owner == s.storages[j].owner ==>
              s.storages[i].position != s.storages[j].position
  {
    forall i, j | 0 <= i < j < |s.accounts| ensures s.accounts[i].address != s.accounts[j].address {
      assert AccountFound(t, hash, s.accounts[i].address, i) && AccountFound(t, hash, s.accounts[j].address, j);
    }
    forall i, j | 0 <= i < j < |s.storages| && s.storages[i].owner == s.storages[j].owner
      ensures s.storages[i].position != s.storages[j].position
    {
      assert SlotFound(t, hash, s.storages[i].owner, s.storages[i].position, i);
      assert SlotFound(t, hash, s.storages[j].owner, s.storages[j].position, j);
    }
  }

  /** The keys decide it, whatever the values. */
  lemma RowsStayLeaves(s: Store, s': Store, t: Tree, hash: KeyHash)
    requires Shaped(t, []) && OneLeafPerRow(s, t, hash) && RowsKept(s, s')
    requires |s'.accounts| == |s.accounts| && |s'.storages| == |s.storages|
    ensures OneLeafPerRow(s', t, hash)
  {
    forall k ensures AccountAtHash(s', t, hash, k) { assert AccountAtHash(s, t, hash, k); }
    forall k, q ensures SlotAtHash(s', t, hash, k, q) { assert SlotAtHash(s, t, hash, k, q); }
  }
}
