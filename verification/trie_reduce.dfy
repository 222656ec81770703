/** The cache-free reduction of a witness tree: what the state-root engine must
    compute, one node at a time, from one set of table values. */
module TrieReduce {
  import opened Basics
  import opened TrieTerms

  datatype Account = Account(nonce: int, balance: int, codeHash: int)

  const EMPTY_CODE_HASH: int := 0xc5d2460186f7233c927e7db2dcc703c0e500b653ca82273b7bfad8045d85a470

  const EMPTY_ACCOUNT := Account(0, 0, EMPTY_CODE_HASH)

  /** One value per table row: the block-start values, or the current ones. */
  datatype Values = Values(accounts: seq<Account>, slots: seq<int>)

  function AccountAt(v: Values, i: nat): Account {
    if i < |v.accounts| then v.accounts[i] else EMPTY_ACCOUNT
  }

  function SlotAt(v: Values, i: nat): int {
    if i < |v.slots| then v.slots[i] else 0
  }

  /** The result of one trie node.  A leaf result names its table row; its value
      is looked up, in one of the two value sets, only when it is packed. */
  datatype NodeR =
    | EmptyR
    | HashR(hash: Hash)
    | ExtR(ext: Path, hash: Hash)
    | AccountLeafR(path: Path, accountIdx: nat, storageRoot: Hash)
    | StorageLeafR(path: Path, storageIdx: nat)
    | PhantomLeafR(path: Path, value: Value)

  /** The node an extension or leaf result stands for. */
  function NodeOf(r: NodeR, v: Values): (n: Node)
    requires !r.EmptyR? && !r.HashR?
    ensures !n.BranchNode?
  {
    match r
    case ExtR(p, h) => ExtensionNode(p, HashRef(h))
    case AccountLeafR(p, i, root) =>
      var a := AccountAt(v, i);
      LeafNode(p, AccountValue(a.nonce, a.balance, a.codeHash, root))
    case StorageLeafR(p, i) => LeafNode(p, SlotValue(SlotAt(v, i)))
    case PhantomLeafR(p, value) => LeafNode(p, value)
  }

  /** How a child result appears in its parent branch. */
  function SlotRef(r: NodeR, v: Values, short: Encoding): Ref {
    match r
    case EmptyR => NoRef
    case HashR(h) => HashRef(h)
    case _ => Cap(NodeOf(r, v), short)
  }

  /** The trie root a result stands for when it is the root. */
  function Finalize(r: NodeR, v: Values): Hash {
    match r
    case EmptyR => EmptyTrieRoot
    case HashR(h) => h
    case _ => Digest(NodeOf(r, v))
  }

  /** The fold of a branch whose only non-empty child sits at nibble `k`. */
  function FoldNibble(k: Nibble, r: NodeR): NodeR {
    match r
    case EmptyR => EmptyR
    case HashR(h) => ExtR([k], h)
    case ExtR(p, h) => ExtR([k] + p, h)
    case AccountLeafR(p, i, root) => AccountLeafR([k] + p, i, root)
    case StorageLeafR(p, i) => StorageLeafR([k] + p, i)
    case PhantomLeafR(p, value) => PhantomLeafR([k] + p, value)
  }

  /** The non-empty children of a branch. */
  function Live(rs: seq<NodeR>): set<int> {
    set k | 0 <= k < |rs| && !rs[k].EmptyR?
  }

  predicate OnlyLive(rs: seq<NodeR>, k: Nibble) {
    k < |rs| && Live(rs) == {k}
  }

  /** A branch from its sixteen child results: nothing, the fold of its only
      child, or the hash of a packed branch. */
  function Branched(rs: seq<NodeR>, v: Values, short: Encoding): NodeR
    requires |rs| == 16
  {
    if Live(rs) == {} then EmptyR
    else if exists k: Nibble :: OnlyLive(rs, k) then
      var k: Nibble :| OnlyLive(rs, k);
      assert Live(rs) == {k};
      FoldNibble(k, rs[k])
    else HashR(Digest(BranchNode(seq(16, (k: Nibble) => SlotRef(rs[k], v, short)), None)))
  }

  // ----- the tree a witness describes ------------------------------------------

  /** A witness tree with every branch spelled out.  `HashT`, `ExtT` and `PhantomT`
      are the parts the witness does not open. */
  datatype Tree =
    | EmptyT
    | HashT(hash: Hash)
    | ExtT(ext: Path, hash: Hash)
    | PhantomT(path: Path, value: Value)
    | SlotT(key: Path, idx: nat)
    | AccountT(key: Path, idx: nat, storage: Tree)
    | BranchT(children: seq<Tree>)

  const KEY_NIBBLES := 64

  /** Every branch has sixteen children, every leaf's key has 64 nibbles and passes
      through the leaf's position `at`. */
  predicate Shaped(t: Tree, at: Path) {
    match t
    case BranchT(ch) =>
      |ch| == 16 && forall k: Nibble :: Shaped(ch[k], at + [k])
    case SlotT(key, _) => |key| == KEY_NIBBLES && at <= key
    case AccountT(key, _, storage) => |key| == KEY_NIBBLES && at <= key && Shaped(storage, [])
    case _ => true
  }

  /** The value a leaf of the tree holds; an absent leaf holds none. */
  function LeafValue(t: Tree, v: Values, short: Encoding): (r: Option<Value>)
    requires t.SlotT? || (t.AccountT? && Shaped(t.storage, []))
    decreases t, 0
  {
    match t
    case SlotT(_, i) => if SlotAt(v, i) == 0 then None else Some(SlotValue(SlotAt(v, i)))
    case AccountT(_, i, storage) =>
      var a := AccountAt(v, i);
      if a == EMPTY_ACCOUNT then None
      else Some(AccountValue(a.nonce, a.balance, a.codeHash, Finalize(Reduce(storage, v, [], short), v)))
  }

  /** The whole tree reduced from scratch; `at` is the walked path. */
  function Reduce(t: Tree, v: Values, at: Path, short: Encoding): NodeR
    requires Shaped(t, at)
    decreases t, 1
  {
    match t
    case EmptyT => EmptyR
    case HashT(h) => HashR(h)
    case ExtT(p, h) => ExtR(p, h)
    case PhantomT(p, value) => PhantomLeafR(p, value)
    case SlotT(key, i) =>
      if LeafValue(t, v, short).None? then EmptyR else StorageLeafR(key[|at|..], i)
    case AccountT(key, i, storage) =>
      if LeafValue(t, v, short).None? then EmptyR
      else AccountLeafR(key[|at|..], i, Finalize(Reduce(storage, v, [], short), v))
    case BranchT(ch) =>
      Branched(seq(16, (k: Nibble) => Reduce(ch[k], v, at + [k], short)), v, short)
  }

  /** The sixteen child results of a branch. */
  function ChildResults(t: Tree, v: Values, at: Path, short: Encoding): (rs: seq<NodeR>)
    requires t.BranchT? && Shaped(t, at)
    ensures |rs| == 16
  {
    seq(16, (k: Nibble) => Reduce(t.children[k], v, at + [k], short))
  }
}
