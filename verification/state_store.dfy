/** The node arrays and leaf tables of the state-root engine, and what it means for
    them to hold a tree. */
module StateStore {
  import opened Basics
  import opened TrieTerms
  import opened TrieReduce
  import opened TrieWitness

  /** A link to a node, resolved by its type. */
  datatype Child =
    | EmptyC
    | BranchC(idx: nat)
    | AccountC(idx: nat)
    | StorageC(idx: nat)
    | HashC(idx: nat)
    | ExtensionHashC(idx: nat)
    | PhantomLeafC(idx: nat)
    | PoolHashC(hash: Hash)   // read in place from the witness
    | ChainC(idx: nat)

  datatype Tag = NoTag | HashTag | NodeTag

  datatype BranchRec = BranchRec(children: seq<Child>, tags: seq<Tag>, cached: NodeR)
  datatype ChainRec = ChainRec(child: Child, prefix: Path, cached: NodeR)
  datatype AccountRow = AccountRow(address: int, addrHash: Path, orig: Account, cur: Account,
                                   storageChild: Child, cached: NodeR)
  datatype SlotRow = SlotRow(owner: int, position: int, posHash: Path, orig: int, cur: int, cached: NodeR)

  /** Where a node sits: the tree below it and the path walked to it. */
  datatype Place = Place(tree: Tree, at: Path)

  datatype Store = Store(
    branches: seq<BranchRec>, aux: seq<NodeR>, chains: seq<ChainRec>,
    accounts: seq<AccountRow>, storages: seq<SlotRow>,
    branchPlace: seq<Place>, chainPlace: seq<Place>,
    accountPlace: seq<Option<Place>>, slotPlace: seq<Place>)

  function Originals(s: Store): Values {
    Values(seq(|s.accounts|, i requires 0 <= i < |s.accounts| => s.accounts[i].orig),
           seq(|s.storages|, i requires 0 <= i < |s.storages| => s.storages[i].orig))
  }

  function Currents(s: Store): Values {
    Values(seq(|s.accounts|, i requires 0 <= i < |s.accounts| => s.accounts[i].cur),
           seq(|s.storages|, i requires 0 <= i < |s.storages| => s.storages[i].cur))
  }

  predicate Aligned(s: Store) {
    && |s.branches| == |s.branchPlace| && |s.chains| == |s.chainPlace|
    && |s.accounts| == |s.accountPlace| && |s.storages| == |s.slotPlace|
  }

  /** The nodes that carry a place of their own. */
  predicate Stored(c: Child) {
    c.BranchC? || c.ChainC? || c.AccountC? || c.StorageC?
  }

  predicate Known(s: Store, c: Child)
    requires Aligned(s)
  {
    match c
    case EmptyC => true
    case PoolHashC(_) => true
    case BranchC(i) => i < |s.branches|
    case ChainC(i) => i < |s.chains|
    case AccountC(i) => i < |s.accounts| && s.accountPlace[i].Some?
    case StorageC(i) => i < |s.storages|
    case HashC(i) => i < |s.aux| && s.aux[i].HashR?
    case ExtensionHashC(i) => i < |s.aux| && s.aux[i].ExtR?
    case PhantomLeafC(i) => i < |s.aux| && s.aux[i].PhantomLeafR?
  }

  function TreeOf(s: Store, c: Child): Tree
    requires Aligned(s) && Known(s, c)
  {
    match c
    case EmptyC => EmptyT
    case PoolHashC(h) => HashT(h)
    case BranchC(i) => s.branchPlace[i].tree
    case ChainC(i) => s.chainPlace[i].tree
    case AccountC(i) => s.accountPlace[i].value.tree
    case StorageC(i) => s.slotPlace[i].tree
    case HashC(i) => HashT(s.aux[i].hash)
    case ExtensionHashC(i) => ExtT(s.aux[i].ext, s.aux[i].hash)
    case PhantomLeafC(i) => PhantomT(s.aux[i].path, s.aux[i].value)
  }

  function AtOf(s: Store, c: Child): Path
    requires Aligned(s) && Known(s, c) && Stored(c)
  {
    match c
    case BranchC(i) => s.branchPlace[i].at
    case ChainC(i) => s.chainPlace[i].at
    case AccountC(i) => s.accountPlace[i].value.at
    case StorageC(i) => s.slotPlace[i].at
  }

  /** A child's result where the engine keeps it. */
  function ResultOf(s: Store, c: Child): NodeR
    requires Aligned(s) && Known(s, c)
  {
    match c
    case EmptyC => EmptyR
    case PoolHashC(h) => HashR(h)
    case BranchC(i) => s.branches[i].cached
    case ChainC(i) => s.chains[i].cached
    case AccountC(i) => s.accounts[i].cached
    case StorageC(i) => s.storages[i].cached
    case HashC(i) => s.aux[i]
    case ExtensionHashC(i) => s.aux[i]
    case PhantomLeafC(i) => s.aux[i]
  }

  predicate Linked(s: Store, c: Child, t: Tree, at: Path)
    requires Aligned(s)
  {
    Known(s, c) && TreeOf(s, c) == t && (Stored(c) ==> AtOf(s, c) == at)
  }

  /** Every leaf of the tree is a table row. */
  predicate Within(t: Tree, accounts: nat, slots: nat) {
    match t
    case SlotT(_, i) => i < slots
    case AccountT(_, i, storage) => i < accounts && Within(storage, accounts, slots)
    case BranchT(ch) => forall k :: 0 <= k < |ch| ==> Within(ch[k], accounts, slots)
    case _ => true
  }

  /** A stored node agrees with its place, and links to nodes at the right places. */
  predicate NodeOk(s: Store, c: Child)
    requires Aligned(s) && Known(s, c)
  {
    Stored(c) ==>
      var t, at := TreeOf(s, c), AtOf(s, c);
      && Shaped(t, at) && Within(t, |s.accounts|, |s.storages|)
      && match c
         case BranchC(i) =>
           var b := s.branches[i];
           && t.BranchT? && |b.children| == 16 && |b.tags| == 16
           && forall k: Nibble :: ChildOk(s, b.children[k], b.tags[k], t.children[k], at + [k])
         case ChainC(i) =>
           var ch := s.chains[i];
           && ch.prefix != [] && !ch.child.ChainC? && Known(s, ch.child)
           && t == Nest(ch.prefix, TreeOf(s, ch.child))
           && Shaped(TreeOf(s, ch.child), at + ch.prefix)
           && Linked(s, ch.child, TreeOf(s, ch.child), at + ch.prefix)
         case AccountC(i) =>
           var a := s.accounts[i];
           Known(s, a.storageChild) &&
           t == AccountT(a.addrHash, i, TreeOf(s, a.storageChild)) &&
           Linked(s, a.storageChild, TreeOf(s, a.storageChild), [])
         case StorageC(i) => t == SlotT(s.storages[i].posHash, i)
  }

  predicate ChildOk(s: Store, c: Child, tag: Tag, t: Tree, at: Path)
    requires Aligned(s)
  {
    Linked(s, c, t, at) && (c.PoolHashC? <==> tag.HashTag?) && (tag.NoTag? ==> c == EmptyC)
  }

  ghost predicate Sound(s: Store) {
    Aligned(s) && forall c: Child :: Known(s, c) ==> NodeOk(s, c)
  }

  /** What a known node reduces to, from scratch. */
  ghost function Red(s: Store, c: Child, v: Values, short: Encoding): NodeR
    requires Aligned(s) && Known(s, c) && NodeOk(s, c)
  {
    Reduce(TreeOf(s, c), v, if Stored(c) then AtOf(s, c) else [], short)
  }

  /** Every node's cached result is its reduction over the block-start values. */
  ghost predicate Fresh(s: Store, short: Encoding)
    requires Sound(s)
  {
    forall c: Child :: Known(s, c) ==> ResultOf(s, c) == Red(s, c, Originals(s), short)
  }

  // ----- growing ----------------------------------------------------------------------

  /** Everything in `s` is still there in `s'`.  An account row without a place is
      still being built: only its key and block-start fields are settled. */
  predicate Extends(s: Store, s': Store)
    requires Aligned(s) && Aligned(s')
  {
    && s.branches <= s'.branches && s.aux <= s'.aux && s.chains <= s'.chains
    && s.storages <= s'.storages && |s.accounts| <= |s'.accounts|
    && s.branchPlace <= s'.branchPlace && s.chainPlace <= s'.chainPlace && s.slotPlace <= s'.slotPlace
    && forall i :: 0 <= i < |s.accounts| ==>
         && SameKey(s.accounts[i], s'.accounts[i])
         && (s.accountPlace[i].Some? ==>
               s'.accounts[i] == s.accounts[i] && s'.accountPlace[i] == s.accountPlace[i])
  }

  predicate SameKey(a: AccountRow, a': AccountRow) {
    a'.address == a.address && a'.orig == a.orig
  }

  lemma ExtendsNode(s: Store, s': Store, c: Child)
    requires Aligned(s) && Aligned(s') && Extends(s, s') && Known(s, c)
    ensures Known(s', c) && TreeOf(s', c) == TreeOf(s, c) && ResultOf(s', c) == ResultOf(s, c)
    ensures Stored(c) ==> AtOf(s', c) == AtOf(s, c)
  {
  }

  lemma {:induction false} WithinMore(t: Tree, a: nat, n: nat, a': nat, n': nat)
    requires Within(t, a, n) && a <= a' && n <= n'
    ensures Within(t, a', n')
    decreases t
  {
    if t.BranchT? {
      forall k | 0 <= k < |t.children| ensures Within(t.children[k], a', n') {
        WithinMore(t.children[k], a, n, a', n');
      }
    } else if t.AccountT? {
      WithinMore(t.storage, a, n, a', n');
    }
  }

  /** New rows leave the values of a tree over old rows alone. */
  lemma {:induction false} WithinSame(t: Tree, s: Store, s': Store)
    requires Aligned(s) && Aligned(s') && Extends(s, s') && Within(t, |s.accounts|, |s.storages|)
    ensures Same(t, Originals(s), Originals(s'))
    decreases t
  {
    if t.BranchT? {
      forall k | 0 <= k < |t.children| ensures Same(t.children[k], Originals(s), Originals(s')) {
        WithinSame(t.children[k], s, s');
      }
    } else if t.AccountT? {
      WithinSame(t.storage, s, s');
    }
  }

  lemma ExtendsOk(s: Store, s': Store, c: Child)
    requires Sound(s) && Aligned(s') && Extends(s, s') && Known(s, c)
    ensures Known(s', c) && NodeOk(s', c)
  {
    ExtendsNode(s, s', c);
    assert NodeOk(s, c);
    if Stored(c) {
      WithinMore(TreeOf(s, c), |s.accounts|, |s.storages|, |s'.accounts|, |s'.storages|);
      match c
      case BranchC(i) =>
        forall k: Nibble
          ensures ChildOk(s', s'.branches[i].children[k], s'.branches[i].tags[k],
                          TreeOf(s', c).children[k], AtOf(s', c) + [k])
        {
          var b := s.branches[i];
          assert ChildOk(s, b.children[k], b.tags[k], TreeOf(s, c).children[k], AtOf(s, c) + [k]);
          ExtendsNode(s, s', b.children[k]);
        }
      case ChainC(i) => ExtendsNode(s, s', s.chains[i].child);
      case AccountC(i) => ExtendsNode(s, s', s.accounts[i].storageChild);
      case StorageC(i) =>
    }
  }

  /** A grown store is sound and fresh if its new nodes are. */
  lemma Grow(s: Store, s': Store, short: Encoding)
    requires Sound(s) && Fresh(s, short) && Aligned(s') && Extends(s, s')
    requires forall c: Child :: Known(s', c) && !Known(s, c) ==> NodeOk(s', c)
    requires forall c: Child :: Known(s', c) && !Known(s, c) && NodeOk(s', c) ==>
               ResultOf(s', c) == Red(s', c, Originals(s'), short)
    ensures Sound(s') && Fresh(s', short)
  {
    forall c: Child | Known(s', c) ensures NodeOk(s', c) {
      if Known(s, c) { ExtendsOk(s, s', c); }
    }
    forall c: Child | Known(s', c) ensures ResultOf(s', c) == Red(s', c, Originals(s'), short) {
      if Known(s, c) {
        ExtendsNode(s, s', c);
        if Stored(c) {
          WithinSame(TreeOf(s, c), s, s');
          SameReduces(TreeOf(s, c), Originals(s), Originals(s'), AtOf(s, c), short);
        }
      }
    }
  }

  /** `s'` is `s` with the one node `self` added. */
  ghost predicate OneMore(s: Store, s': Store, self: Child)
    requires Aligned(s) && Aligned(s')
  {
    && Extends(s, s') && Known(s', self) && !Known(s, self)
    && forall c: Child :: Known(s', c) && !Known(s, c) ==> c == self
  }

  lemma GrowOne(s: Store, s': Store, self: Child, short: Encoding)
    requires Sound(s) && Fresh(s, short) && Aligned(s') && OneMore(s, s', self) && NodeOk(s', self)
    requires ResultOf(s', self) == Red(s', self, Originals(s'), short)
    ensures Sound(s') && Fresh(s', short)
  {
    Grow(s, s', short);
  }

  // ----- ownership ----------------------------------------------------------------------

  predicate Refers(s: Store, d: Child, c: Child)
    requires Aligned(s) && Known(s, d)
  {
    match d
    case BranchC(i) => c in s.branches[i].children
    case ChainC(i) => s.chains[i].child == c
    case AccountC(i) => s.accounts[i].storageChild == c
    case _ => false
  }

  /** No node links to `c` yet. */
  ghost predicate Unlinked(s: Store, c: Child)
    requires Aligned(s)
  {
    forall d: Child :: Known(s, d) ==> !Refers(s, d, c)
  }

  lemma KnownReferents(s: Store, d: Child, c: Child)
    requires Sound(s) && Known(s, d) && Refers(s, d, c)
    ensures Known(s, c)
  {
    assert NodeOk(s, d);
    if d.BranchC? {
      var b := s.branches[d.idx];
      var k: int :| 0 <= k < 16 && b.children[k] == c;
      assert ChildOk(s, b.children[k], b.tags[k], TreeOf(s, d).children[k], AtOf(s, d) + [k]);
    }
  }

  lemma FreshlyUnlinked(s: Store, s': Store, c: Child)
    requires Sound(s) && Aligned(s') && Extends(s, s') && Stored(c) && !Known(s, c)
    requires forall d: Child :: Known(s', d) && !Known(s, d) ==> !Refers(s', d, c)
    ensures Unlinked(s', c)
  {
    forall d: Child | Known(s', d) ensures !Refers(s', d, c) {
      if Known(s, d) {
        if Refers(s, d, c) { KnownReferents(s, d, c); }
      }
    }
  }

  // ----- growing a chain in place ---------------------------------------------------------

  /** The store after chain `i` took one more nibble in front. */
  function ChainGrown(s: Store, i: nat, k: Nibble, at: Path): Store
    requires Aligned(s) && i < |s.chains|
  {
    var ch := s.chains[i];
    s.(chains := s.chains[i := ChainRec(ch.child, [k] + ch.prefix, FoldNibble(k, ch.cached))],
       chainPlace := s.chainPlace[i := Place(Nest([k], s.chainPlace[i].tree), at)])
  }

  lemma NestAppend(k: Nibble, p: Path, t: Tree)
    ensures Nest([k], Nest(p, t)) == Nest([k] + p, t)
  {
    assert ([k] + p)[1..] == p && [k][1..] == [];
    assert Nest([k], Nest(p, t)).children == Nest([k] + p, t).children;
  }

  lemma {:induction false} WithinNest(p: Path, t: Tree, a: nat, n: nat)
    requires Within(t, a, n)
    ensures Within(Nest(p, t), a, n)
    decreases |p|
  {
    if p != [] { WithinNest(p[1..], t, a, n); }
  }

  /** Growing an unlinked chain keeps the store sound and fresh. */
  lemma ChainGrownOk(s: Store, i: nat, k: Nibble, at: Path, short: Encoding)
    requires Sound(s) && Fresh(s, short) && i < |s.chains|
    requires Unlinked(s, ChainC(i)) && s.chainPlace[i].at == at + [k]
    ensures Sound(ChainGrown(s, i, k, at)) && Fresh(ChainGrown(s, i, k, at), short)
    ensures Unlinked(ChainGrown(s, i, k, at), ChainC(i))
  {
    var s' := ChainGrown(s, i, k, at);
    var self := ChainC(i);
    assert NodeOk(s, self);
    assert Originals(s') == Originals(s);
    forall c: Child | Known(s', c)
      ensures NodeOk(s', c) && ResultOf(s', c) == Red(s', c, Originals(s'), short)
    {
      assert Known(s, c) && NodeOk(s, c);
      if c == self {
        ChainGrownSelf(s, i, k, at, short);
      } else {
        assert !Refers(s, c, self);
        OtherNodeOk(s, i, k, at, c);
      }
    }
    forall d: Child | Known(s', d) ensures !Refers(s', d, self) {
      assert Known(s, d) && !Refers(s, d, self);
    }
  }

  lemma ChainGrownSelf(s: Store, i: nat, k: Nibble, at: Path, short: Encoding)
    requires Aligned(s) && i < |s.chains| && s.chainPlace[i].at == at + [k] && NodeOk(s, ChainC(i))
    requires ResultOf(s, ChainC(i)) == Red(s, ChainC(i), Originals(s), short)
    ensures var s' := ChainGrown(s, i, k, at);
            Known(s', ChainC(i)) && NodeOk(s', ChainC(i)) &&
            ResultOf(s', ChainC(i)) == Red(s', ChainC(i), Originals(s), short)
  {
    var ch := s.chains[i];
    ChainGrownNode(s, i, k, at);
    NestReduces([k], TreeOf(s, ChainC(i)), Originals(s), at, short);
    assert FoldAll([k], ch.cached) == FoldNibble(k, ch.cached) by { assert [k][1..] == []; }
  }

  lemma ChainGrownNode(s: Store, i: nat, k: Nibble, at: Path)
    requires Aligned(s) && i < |s.chains| && s.chainPlace[i].at == at + [k] && NodeOk(s, ChainC(i))
    ensures NodeOk(ChainGrown(s, i, k, at), ChainC(i)) && Shaped(Nest([k], TreeOf(s, ChainC(i))), at)
  {
    var ch := s.chains[i];
    var t := TreeOf(s, ChainC(i));
    NestAppend(k, ch.prefix, TreeOf(s, ch.child));
    assert at + [k] + ch.prefix == at + ([k] + ch.prefix);
    NestShaped([k], t, at);
    WithinNest([k], t, |s.accounts|, |s.storages|);
  }

  /** A node that is not the grown chain and does not link to it. */
  lemma OtherNodeOk(s: Store, i: nat, k: Nibble, at: Path, c: Child)
    requires Aligned(s) && i < |s.chains|
    requires Known(s, c) && NodeOk(s, c) && c != ChainC(i) && !Refers(s, c, ChainC(i))
    ensures var s' := ChainGrown(s, i, k, at);
            && Known(s', c) && NodeOk(s', c) && ResultOf(s', c) == ResultOf(s, c)
            && TreeOf(s', c) == TreeOf(s, c) && (Stored(c) ==> AtOf(s', c) == AtOf(s, c))
  {
    if c.BranchC? { OtherBranchOk(s, i, k, at, c); }
  }

  lemma OtherBranchOk(s: Store, i: nat, k: Nibble, at: Path, c: Child)
    requires Aligned(s) && i < |s.chains| && c.BranchC?
    requires Known(s, c) && NodeOk(s, c) && !Refers(s, c, ChainC(i))
    ensures NodeOk(ChainGrown(s, i, k, at), c)
  {
    var s' := ChainGrown(s, i, k, at);
    var b := s.branches[c.idx];
    forall j: Nibble
      ensures ChildOk(s', b.children[j], b.tags[j], TreeOf(s', c).children[j], AtOf(s', c) + [j])
    {
      assert ChildOk(s, b.children[j], b.tags[j], TreeOf(s, c).children[j], AtOf(s, c) + [j]);
      assert b.children[j] in b.children;
    }
  }

  // ----- adding one node -------------------------------------------------------------------

  function AddAux(s: Store, r: NodeR): Store {
    s.(aux := s.aux + [r])
  }

  lemma AddAuxOk(s: Store, r: NodeR, short: Encoding)
    requires Sound(s) && Fresh(s, short) && (r.HashR? || r.ExtR? || r.PhantomLeafR?)
    ensures Sound(AddAux(s, r)) && Fresh(AddAux(s, r), short) && Extends(s, AddAux(s, r))
  {
    Grow(s, AddAux(s, r), short);
  }

  function AddChain(s: Store, c: Child, k: Nibble, r: NodeR, at: Path): Store
    requires Aligned(s) && Known(s, c)
  {
    s.(chains := s.chains + [ChainRec(c, [k], r)],
       chainPlace := s.chainPlace + [Place(Nest([k], TreeOf(s, c)), at)])
  }

  lemma AddChainOk(s: Store, c: Child, k: Nibble, at: Path, short: Encoding)
    requires Sound(s) && Fresh(s, short) && Known(s, c) && !c.ChainC?
    requires Shaped(TreeOf(s, c), at + [k]) && Within(TreeOf(s, c), |s.accounts|, |s.storages|)
    requires Stored(c) ==> AtOf(s, c) == at + [k]
    ensures var s' := AddChain(s, c, k, FoldAll([k], ResultOf(s, c)), at);
            && Sound(s') && Fresh(s', short) && Extends(s, s') && Unlinked(s', ChainC(|s.chains|))
  {
    var s' := AddChain(s, c, k, FoldAll([k], ResultOf(s, c)), at);
    var self := ChainC(|s.chains|);
    assert NodeOk(s, c) && ResultOf(s, c) == Red(s, c, Originals(s), short);
    AddedChain(s, c, k, at, short);
    GrowOne(s, s', self, short);
    FreshlyUnlinked(s, s', self);
  }

  lemma AddedChain(s: Store, c: Child, k: Nibble, at: Path, short: Encoding)
    requires Aligned(s) && Known(s, c) && NodeOk(s, c) && !c.ChainC?
    requires Shaped(TreeOf(s, c), at + [k]) && Within(TreeOf(s, c), |s.accounts|, |s.storages|)
    requires Stored(c) ==> AtOf(s, c) == at + [k]
    requires ResultOf(s, c) == Red(s, c, Originals(s), short)
    ensures var s', self := AddChain(s, c, k, FoldAll([k], ResultOf(s, c)), at), ChainC(|s.chains|);
            && Aligned(s') && OneMore(s, s', self) && NodeOk(s', self)
            && ResultOf(s', self) == Red(s', self, Originals(s'), short)
  {
    var s' := AddChain(s, c, k, FoldAll([k], ResultOf(s, c)), at);
    AddedChainNode(s, c, k, FoldAll([k], ResultOf(s, c)), at);
    NestReduces([k], TreeOf(s, c), Originals(s), at, short);
    assert Originals(s') == Originals(s);
  }

  lemma AddedChainNode(s: Store, c: Child, k: Nibble, r: NodeR, at: Path)
    requires Aligned(s) && Known(s, c) && !c.ChainC?
    requires Shaped(TreeOf(s, c), at + [k]) && Within(TreeOf(s, c), |s.accounts|, |s.storages|)
    requires Stored(c) ==> AtOf(s, c) == at + [k]
    ensures var s', self := AddChain(s, c, k, r, at), ChainC(|s.chains|);
            Aligned(s') && OneMore(s, s', self) && NodeOk(s', self)
  {
    NestShaped([k], TreeOf(s, c), at);
    WithinNest([k], TreeOf(s, c), |s.accounts|, |s.storages|);
  }

  function AddBranch(s: Store, b: BranchRec, at: Path): Store
    requires Aligned(s) && |b.children| == 16 && forall k: Nibble :: Known(s, b.children[k])
  {
    s.(branches := s.branches + [b],
       branchPlace := s.branchPlace + [Place(BranchOver(s, b.children), at)])
  }

  /** The branch over sixteen known nodes. */
  function BranchOver(s: Store, children: seq<Child>): Tree
    requires Aligned(s) && |children| == 16 && forall k: Nibble :: Known(s, children[k])
  {
    BranchT(seq(16, (k: Nibble) requires Known(s, children[k]) => TreeOf(s, children[k])))
  }

  lemma AddBranchOk(s: Store, b: BranchRec, at: Path, short: Encoding)
    requires Sound(s) && Fresh(s, short) && |b.children| == 16 && |b.tags| == 16
    requires forall k: Nibble :: Known(s, b.children[k])
    requires forall k: Nibble ::
               && ChildOk(s, b.children[k], b.tags[k], TreeOf(s, b.children[k]), at + [k])
               && Shaped(TreeOf(s, b.children[k]), at + [k])
               && Within(TreeOf(s, b.children[k]), |s.accounts|, |s.storages|)
    requires b.cached == Branched(seq(16, (k: Nibble) requires Known(s, b.children[k]) => ResultOf(s, b.children[k])),
                                  Originals(s), short)
    ensures Sound(AddBranch(s, b, at)) && Fresh(AddBranch(s, b, at), short) && Extends(s, AddBranch(s, b, at))
  {
    var s' := AddBranch(s, b, at);
    var self := BranchC(|s.branches|);
    forall k: Nibble
      ensures NodeOk(s, b.children[k]) && ResultOf(s, b.children[k]) == Red(s, b.children[k], Originals(s), short)
    {
    }
    AddedBranch(s, b, at);
    AddedResult(s, b, at, short);
    GrowOne(s, s', self, short);
  }

  lemma AddedBranch(s: Store, b: BranchRec, at: Path)
    requires Aligned(s) && |b.children| == 16 && |b.tags| == 16
    requires forall k: Nibble :: Known(s, b.children[k])
    requires forall k: Nibble ::
               && ChildOk(s, b.children[k], b.tags[k], TreeOf(s, b.children[k]), at + [k])
               && Shaped(TreeOf(s, b.children[k]), at + [k])
               && Within(TreeOf(s, b.children[k]), |s.accounts|, |s.storages|)
    ensures var s', self := AddBranch(s, b, at), BranchC(|s.branches|);
            Aligned(s') && OneMore(s, s', self) && NodeOk(s', self)
  {
    var s' := AddBranch(s, b, at);
    var t := BranchOver(s, b.children);
    assert Shaped(t, at);
    forall k: Nibble ensures ChildOk(s', b.children[k], b.tags[k], t.children[k], at + [k]) {
      ExtendsNode(s, s', b.children[k]);
    }
  }

  lemma AddedResult(s: Store, b: BranchRec, at: Path, short: Encoding)
    requires Aligned(s) && |b.children| == 16
    requires forall k: Nibble :: Known(s, b.children[k]) && NodeOk(s, b.children[k])
    requires forall k: Nibble :: Stored(b.children[k]) ==> AtOf(s, b.children[k]) == at + [k]
    requires forall k: Nibble :: Shaped(TreeOf(s, b.children[k]), at + [k])
    requires forall k: Nibble :: ResultOf(s, b.children[k]) == Red(s, b.children[k], Originals(s), short)
    requires b.cached == Branched(seq(16, (k: Nibble) requires Known(s, b.children[k]) => ResultOf(s, b.children[k])),
                                  Originals(s), short)
    ensures var t := BranchOver(s, b.children);
            Shaped(t, at) && b.cached == Reduce(t, Originals(AddBranch(s, b, at)), at, short)
  {
    assert Originals(AddBranch(s, b, at)) == Originals(s);
    var t := BranchOver(s, b.children);
    assert Shaped(t, at);
    var rs := ChildResults(t, Originals(s), at, short);
    forall k: Nibble ensures rs[k] == ResultOf(s, b.children[k]) {
      assert t.children[k] == TreeOf(s, b.children[k]);
    }
    assert rs == seq(16, (k: Nibble) requires Known(s, b.children[k]) => ResultOf(s, b.children[k]));
  }

  function AddSlot(s: Store, row: SlotRow, at: Path): Store
    requires Aligned(s)
  {
    s.(storages := s.storages + [row],
       slotPlace := s.slotPlace + [Place(SlotT(row.posHash, |s.storages|), at)])
  }

  lemma AddSlotOk(s: Store, row: SlotRow, at: Path, short: Encoding)
    requires Sound(s) && Fresh(s, short) && |row.posHash| == KEY_NIBBLES && at <= row.posHash
    requires row.cached == if row.orig == 0 then EmptyR else StorageLeafR(row.posHash[|at|..], |s.storages|)
    ensures Sound(AddSlot(s, row, at)) && Fresh(AddSlot(s, row, at), short) && Extends(s, AddSlot(s, row, at))
  {
    var s' := AddSlot(s, row, at);
    var self := StorageC(|s.storages|);
    assert forall c: Child :: Known(s', c) && !Known(s, c) ==> c == self;
    assert SlotAt(Originals(s'), |s.storages|) == row.orig;
    var t := SlotT(row.posHash, |s.storages|);
    assert TreeOf(s', self) == t && AtOf(s', self) == at;
    assert LeafValue(t, Originals(s'), short).None? <==> row.orig == 0;
    assert Reduce(t, Originals(s'), at, short) == row.cached;
    Grow(s, s', short);
  }

  /** A new account row whose leaf is not built yet. */
  function AddAccount(s: Store, row: AccountRow): Store {
    s.(accounts := s.accounts + [row], accountPlace := s.accountPlace + [None])
  }

  lemma AddAccountOk(s: Store, row: AccountRow, short: Encoding)
    requires Sound(s) && Fresh(s, short)
    ensures Sound(AddAccount(s, row)) && Fresh(AddAccount(s, row), short) && Extends(s, AddAccount(s, row))
  {
    Grow(s, AddAccount(s, row), short);
  }

  /** The row's leaf, once its storage subtree is built. */
  function FinishAccount(s: Store, i: nat, key: Path, c: Child, r: NodeR, at: Path): Store
    requires Aligned(s) && i < |s.accounts| && Known(s, c)
  {
    s.(accounts := s.accounts[i := s.accounts[i].(addrHash := key, storageChild := c, cached := r)],
       accountPlace := s.accountPlace[i := Some(Place(AccountT(key, i, TreeOf(s, c)), at))])
  }

  lemma FinishAccountOk(s: Store, i: nat, key: Path, c: Child, r: NodeR, at: Path, short: Encoding)
    requires Sound(s) && Fresh(s, short) && i < |s.accounts| && s.accountPlace[i].None?
    requires |key| == KEY_NIBBLES && at <= key && Known(s, c)
    requires Shaped(TreeOf(s, c), []) && Within(TreeOf(s, c), |s.accounts|, |s.storages|)
    requires Stored(c) ==> AtOf(s, c) == []
    requires r == if s.accounts[i].orig == EMPTY_ACCOUNT then EmptyR
                  else AccountLeafR(key[|at|..], i, Finalize(ResultOf(s, c), Originals(s)))
    ensures var s' := FinishAccount(s, i, key, c, r, at);
            Sound(s') && Fresh(s', short) && Extends(s, s') && Originals(s') == Originals(s)
  {
    var s' := FinishAccount(s, i, key, c, r, at);
    assert Originals(s') == Originals(s);
    assert ResultOf(s, c) == Red(s, c, Originals(s), short);
    ExtendsNode(s, s', c);
    assert NodeOk(s', AccountC(i));
    assert forall d: Child :: Known(s', d) && !Known(s, d) ==> d == AccountC(i);
    assert AccountAt(Originals(s'), i) == s.accounts[i].orig;
    var t := AccountT(key, i, TreeOf(s, c));
    assert TreeOf(s', AccountC(i)) == t && AtOf(s', AccountC(i)) == at;
    assert LeafValue(t, Originals(s'), short).None? <==> s.accounts[i].orig == EMPTY_ACCOUNT;
    assert Reduce(t, Originals(s'), at, short) == r;
    Grow(s, s', short);
  }

  // ----- the eval pass changes only cached results --------------------------------------------

  predicate SameShape(s: Store, s': Store) {
    && s'.aux == s.aux && s'.branchPlace == s.branchPlace && s'.chainPlace == s.chainPlace
    && s'.accountPlace == s.accountPlace && s'.slotPlace == s.slotPlace
    && |s'.branches| == |s.branches| && |s'.chains| == |s.chains|
    && |s'.accounts| == |s.accounts| && |s'.storages| == |s.storages|
    && (forall i :: 0 <= i < |s.branches| ==> s'.branches[i] == s.branches[i].(cached := s'.branches[i].cached))
    && (forall i :: 0 <= i < |s.chains| ==> s'.chains[i] == s.chains[i].(cached := s'.chains[i].cached))
    && (forall i :: 0 <= i < |s.accounts| ==> s'.accounts[i] == s.accounts[i].(cached := s'.accounts[i].cached))
    && (forall i :: 0 <= i < |s.storages| ==> s'.storages[i] == s.storages[i].(cached := s'.storages[i].cached))
  }

  /** The same nodes at the same places, whatever their values and results. */
  predicate SameLinks(s: Store, s': Store) {
    && s'.aux == s.aux && s'.branchPlace == s.branchPlace && s'.chainPlace == s.chainPlace
    && s'.accountPlace == s.accountPlace && s'.slotPlace == s.slotPlace
    && |s'.branches| == |s.branches| && |s'.chains| == |s.chains|
    && |s'.accounts| == |s.accounts| && |s'.storages| == |s.storages|
    && (forall i :: 0 <= i < |s.branches| ==>
          s'.branches[i].children == s.branches[i].children && s'.branches[i].tags == s.branches[i].tags)
    && (forall i :: 0 <= i < |s.chains| ==>
          s'.chains[i].child == s.chains[i].child && s'.chains[i].prefix == s.chains[i].prefix)
    && (forall i :: 0 <= i < |s.accounts| ==>
          s'.accounts[i].addrHash == s.accounts[i].addrHash && s'.accounts[i].storageChild == s.accounts[i].storageChild)
    && (forall i :: 0 <= i < |s.storages| ==> s'.storages[i].posHash == s.storages[i].posHash)
  }

  lemma SameLinksNode(s: Store, s': Store, c: Child)
    requires Aligned(s) && Aligned(s') && SameLinks(s, s')
    ensures Known(s', c) <==> Known(s, c)
    ensures Known(s, c) ==> TreeOf(s', c) == TreeOf(s, c) && (Stored(c) ==> AtOf(s', c) == AtOf(s, c))
  {
  }

  lemma LinkKept(s: Store, s': Store, c: Child)
    requires Aligned(s) && Aligned(s') && SameLinks(s, s') && Known(s, c) && NodeOk(s, c)
    ensures Known(s', c) && NodeOk(s', c)
  {
    SameLinksNode(s, s', c);
    match c
    case BranchC(i) =>
      var b := s.branches[i];
      forall k: Nibble
        ensures ChildOk(s', b.children[k], b.tags[k], TreeOf(s', c).children[k], AtOf(s', c) + [k])
      {
        assert ChildOk(s, b.children[k], b.tags[k], TreeOf(s, c).children[k], AtOf(s, c) + [k]);
        SameLinksNode(s, s', b.children[k]);
      }
    case ChainC(i) => SameLinksNode(s, s', s.chains[i].child);
    case AccountC(i) => SameLinksNode(s, s', s.accounts[i].storageChild);
    case _ =>
  }

  lemma LinksKept(s: Store, s': Store)
    requires Sound(s) && Aligned(s') && SameLinks(s, s')
    ensures Sound(s')
    ensures forall c: Child :: Known(s', c) <==> Known(s, c)
    ensures forall c: Child :: Known(s, c) ==>
              TreeOf(s', c) == TreeOf(s, c) && (Stored(c) ==> AtOf(s', c) == AtOf(s, c))
  {
    forall c: Child ensures Known(s', c) <==> Known(s, c) {
      SameLinksNode(s, s', c);
    }
    forall c: Child | Known(s', c) ensures NodeOk(s', c) {
      LinkKept(s, s', c);
    }
    forall c: Child | Known(s, c)
      ensures TreeOf(s', c) == TreeOf(s, c) && (Stored(c) ==> AtOf(s', c) == AtOf(s, c))
    {
      SameLinksNode(s, s', c);
    }
  }

  lemma ShapeKeeps(s: Store, s': Store)
    requires Sound(s) && SameShape(s, s')
    ensures Sound(s') && Originals(s') == Originals(s) && Currents(s') == Currents(s)
    ensures forall c: Child :: Known(s', c) <==> Known(s, c)
    ensures forall c: Child :: Known(s, c) ==>
              TreeOf(s', c) == TreeOf(s, c) && (Stored(c) ==> AtOf(s', c) == AtOf(s, c))
  {
    assert SameLinks(s, s');
    LinksKept(s, s');
  }

  /** Between the passes every cached result is the old reduction or the new one. */
  ghost predicate Half(s: Store, short: Encoding)
    requires Sound(s)
  {
    forall c: Child :: Known(s, c) ==>
      ResultOf(s, c) == Red(s, c, Originals(s), short) || ResultOf(s, c) == Red(s, c, Currents(s), short)
  }

  ghost predicate Settled(s: Store, c: Child, short: Encoding)
    requires Sound(s) && Known(s, c)
  {
    ResultOf(s, c) == Red(s, c, Currents(s), short)
  }

  /** What was re-evaluated stays re-evaluated. */
  ghost predicate Settles(s: Store, s': Store, short: Encoding)
    requires Sound(s) && Sound(s')
  {
    forall c: Child :: Known(s, c) && Known(s', c) && Settled(s, c, short) ==> Settled(s', c, short)
  }

  function SetCached(s: Store, c: Child, r: NodeR): Store
    requires Aligned(s) && Known(s, c) && Stored(c)
  {
    match c
    case BranchC(i) => s.(branches := s.branches[i := s.branches[i].(cached := r)])
    case ChainC(i) => s.(chains := s.chains[i := s.chains[i].(cached := r)])
    case AccountC(i) => s.(accounts := s.accounts[i := s.accounts[i].(cached := r)])
    case StorageC(i) => s.(storages := s.storages[i := s.storages[i].(cached := r)])
  }

  lemma SetCachedOk(s: Store, c: Child, short: Encoding)
    requires Sound(s) && Half(s, short) && Known(s, c) && Stored(c)
    ensures var s' := SetCached(s, c, Red(s, c, Currents(s), short));
            && SameShape(s, s') && Sound(s') && Half(s', short) && Settles(s, s', short)
            && Known(s', c) && Settled(s', c, short)
  {
    var r := Red(s, c, Currents(s), short);
    var s' := SetCached(s, c, r);
    SetCachedShape(s, c, r);
    ShapeKeeps(s, s');
    forall d: Child | Known(s', d)
      ensures ResultOf(s', d) == if d == c then r else ResultOf(s, d)
      ensures Red(s', d, Originals(s'), short) == Red(s, d, Originals(s), short)
      ensures Red(s', d, Currents(s'), short) == Red(s, d, Currents(s), short)
    {
      SetCachedResult(s, c, r, d);
    }
  }

  lemma SetCachedShape(s: Store, c: Child, r: NodeR)
    requires Aligned(s) && Known(s, c) && Stored(c)
    ensures SameShape(s, SetCached(s, c, r))
  {
  }

  lemma SetCachedResult(s: Store, c: Child, r: NodeR, d: Child)
    requires Aligned(s) && Known(s, c) && Stored(c) && Known(s, d)
    ensures var s' := SetCached(s, c, r);
            Aligned(s') && Known(s', d) && ResultOf(s', d) == if d == c then r else ResultOf(s, d)
  {
  }

  lemma SettlesTrans(s: Store, s': Store, s'': Store, short: Encoding)
    requires Sound(s) && SameShape(s, s') && SameShape(s', s'') && Sound(s') && Sound(s'')
    requires Settles(s, s', short) && Settles(s', s'', short)
    ensures SameShape(s, s'') && Settles(s, s'', short)
  {
    ShapeKeeps(s, s');
    ShapeKeeps(s', s'');
  }

  /** An unchanged node's cached result is its new one already. */
  lemma UnchangedSettled(s: Store, c: Child, short: Encoding)
    requires Sound(s) && Half(s, short) && Known(s, c) && Same(TreeOf(s, c), Originals(s), Currents(s))
    ensures Settled(s, c, short) && ResultOf(s, c) == Red(s, c, Originals(s), short)
  {
    assert NodeOk(s, c);
    SameReduces(TreeOf(s, c), Originals(s), Currents(s), if Stored(c) then AtOf(s, c) else [], short);
  }
}
