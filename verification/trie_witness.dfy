/** The witness as the stream spells it, and the conditions under which the build
    pass accepts it. */
module TrieWitness {
  import opened Basics
  import opened TrieTerms
  import opened TrieReduce
  import opened TrieSoundness

  /** A branch child's two-bit tag, with what it announces. */
  datatype Slot = NoChild | HashChild(hash: Hash) | NodeChild(node: Wit)

  datatype Wit =
    | EmptyOp
    | HashOp(hash: Hash)
    | ExtensionHashOp(ext: Path, hash: Hash)
    | PhantomLeafOp(path: Path, value: Value)
    | AccountLeafOp(suffix: Path, address: int, account: Account, storage: Wit)
    | StorageLeafOp(suffix: Path, position: int, slotValue: int)
    | BranchOp(slots: seq<Slot>)

  datatype Kind = State | Storage

  /** The nibbles of the keccak256 hash of a plaintext key. */
  type KeyHash = int -> Path

  /** Sixteen tags per branch, and leaves of the trie's own kind. */
  predicate WellFormed(w: Wit, kind: Kind) {
    match w
    case BranchOp(slots) =>
      |slots| == 16 &&
      forall k: Nibble :: slots[k].NodeChild? ==> WellFormed(slots[k].node, kind)
    case AccountLeafOp(_, _, _, storage) => kind == State && WellFormed(storage, Storage)
    case StorageLeafOp(_, _, _) => kind == Storage
    case _ => true
  }

  /** The witness opens nothing that exists. */
  predicate Vacant(w: Wit) {
    match w
    case EmptyOp => true
    case StorageLeafOp(_, _, v) => v == 0
    case AccountLeafOp(_, _, a, _) => a == EMPTY_ACCOUNT
    case BranchOp(slots) =>
      forall k :: 0 <= k < |slots| ==>
        !slots[k].HashChild? && (slots[k].NodeChild? ==> Vacant(slots[k].node))
    case _ => false
  }

  /** A storage trie with the empty root. */
  predicate EmptyStorage(w: Wit) {
    Vacant(w) || w == HashOp(EmptyTrieRoot)
  }

  /** Everything but the node count that the build pass checks: branch depth, the
      bond between a leaf's key and its path, and no storage without an account. */
  predicate Lawful(w: Wit, walked: Path, hash: KeyHash) {
    match w
    case BranchOp(slots) =>
      |walked| < KEY_NIBBLES &&
      forall k: Nibble :: k < |slots| && slots[k].NodeChild? ==> Lawful(slots[k].node, walked + [k], hash)
    case AccountLeafOp(suffix, address, account, storage) =>
      && |walked + suffix| == KEY_NIBBLES
      && hash(address) == walked + suffix
      && Lawful(storage, [], hash)
      && (account == EMPTY_ACCOUNT ==> EmptyStorage(storage))
    case StorageLeafOp(suffix, position, _) =>
      |walked + suffix| == KEY_NIBBLES && hash(position) == walked + suffix
    case _ => true
  }

  /** The one child a branch announces, if it announces exactly one. */
  predicate Announces(slots: seq<Slot>, k: int) {
    0 <= k < |slots| && forall j :: 0 <= j < |slots| ==> (slots[j].NoChild? <==> j != k)
  }

  /** A run of one-child branches becomes a chain. */
  predicate IsRun(w: Wit) {
    w.BranchOp? && exists k :: 0 <= k < |w.slots| && Announces(w.slots, k)
  }

  /** A branch that extends the run its only child already is. */
  predicate GrowsRun(slots: seq<Slot>) {
    exists k :: 0 <= k < |slots| && Announces(slots, k) && slots[k].NodeChild? && IsRun(slots[k].node)
  }

  /** The node count after building `w` from count `n`, or none when it passes the
      declared limit. */
  function Tally(w: Wit, n: nat, limit: nat): (r: Option<nat>)
    ensures r.Some? ==> r.value >= n
    ensures r.Some? && n <= limit ==> r.value <= limit
    decreases w, 1
  {
    match w
    case EmptyOp => Some(n)
    case HashOp(_) => if n >= limit then None else Some(n + 1)
    case ExtensionHashOp(_, _) => if n >= limit then None else Some(n + 1)
    case PhantomLeafOp(_, _) => if n >= limit then None else Some(n + 1)
    case AccountLeafOp(_, _, _, storage) => Tally(storage, n, limit)
    case StorageLeafOp(_, _, _) => Some(n)
    case BranchOp(slots) =>
      var below := TallySlots(w, |slots|, n, limit);
      if below.None? || below.value >= limit then None
      else if GrowsRun(slots) then below
      else Some(below.value + 1)
  }

  function TallySlot(slot: Slot, n: nat, limit: nat): (r: Option<nat>)
    ensures r.Some? ==> r.value >= n
    ensures r.Some? && n <= limit ==> r.value <= limit
    decreases slot, 2
  {
    match slot
    case NoChild => Some(n)
    case HashChild(_) => if n >= limit then None else Some(n + 1)
    case NodeChild(node) => Tally(node, n, limit)
  }

  function TallySlots(w: Wit, k: nat, n: nat, limit: nat): (r: Option<nat>)
    requires w.BranchOp? && k <= |w.slots|
    ensures r.Some? ==> r.value >= n
    ensures r.Some? && n <= limit ==> r.value <= limit
    decreases w, 0, k
  {
    if k == 0 then Some(n)
    else
      var before := TallySlots(w, k - 1, n, limit);
      if before.None? then None else TallySlot(w.slots[k - 1], before.value, limit)
  }

  /** The nodes kept for a witness: one for every hash, opaque leaf and extension, one for
      every fork, and one for every run of one-child branches. */
  function Nodes(w: Wit): nat
    decreases w, 1
  {
    match w
    case HashOp(_) => 1
    case ExtensionHashOp(_, _) => 1
    case PhantomLeafOp(_, _) => 1
    case AccountLeafOp(_, _, _, storage) => Nodes(storage)
    case BranchOp(slots) => NodesBelow(w, |slots|) + if GrowsRun(slots) then 0 else 1
    case _ => 0
  }

  function NodesBelow(w: Wit, k: nat): nat
    requires w.BranchOp? && k <= |w.slots|
    decreases w, 0, k
  {
    if k == 0 then 0
    else
      NodesBelow(w, k - 1) + (match w.slots[k - 1]
                              case NoChild => 0
                              case HashChild(_) => 1
                              case NodeChild(node) => Nodes(node))
  }

  /** The last thing the build does is to grow a run. */
  predicate GrownLast(w: Wit) {
    match w
    case AccountLeafOp(_, _, _, storage) => GrownLast(storage)
    case BranchOp(slots) => GrowsRun(slots)
    case _ => false
  }

  /** A witness is within the limit exactly when its nodes are, except that a run is not
      grown once the limit is reached. */
  lemma {:induction false} TallyExactly(w: Wit, n: nat, limit: nat)
    requires n <= limit
    ensures Tally(w, n, limit) ==
            if n + Nodes(w) < limit || (n + Nodes(w) == limit && !GrownLast(w)) then Some(n + Nodes(w)) else None
    decreases w, 1
  {
    match w
    case AccountLeafOp(_, _, _, storage) => TallyExactly(storage, n, limit);
    case BranchOp(slots) => TallyBelow(w, |slots|, n, limit);
    case _ =>
  }

  lemma {:induction false} TallyBelow(w: Wit, k: nat, n: nat, limit: nat)
    requires n <= limit && w.BranchOp? && k <= |w.slots|
    ensures n + NodesBelow(w, k) < limit ==> TallySlots(w, k, n, limit) == Some(n + NodesBelow(w, k))
    ensures TallySlots(w, k, n, limit).Some? ==> TallySlots(w, k, n, limit).value == n + NodesBelow(w, k)
    decreases w, 0, k
  {
    if k > 0 {
      TallyBelow(w, k - 1, n, limit);
      var before := TallySlots(w, k - 1, n, limit);
      var slot := w.slots[k - 1];
      if before.Some? && slot.NodeChild? {
        TallyExactly(slot.node, before.value, limit);
      }
    }
  }

  // ----- chains ---------------------------------------------------------------------

  /** The nested one-child branches a chain stands for. */
  function Nest(p: Path, t: Tree): Tree {
    if p == [] then t
    else BranchT(seq(16, (k: Nibble) => if k == p[0] then Nest(p[1..], t) else EmptyT))
  }

  function FoldAll(p: Path, r: NodeR): NodeR {
    if p == [] then r else FoldNibble(p[0], FoldAll(p[1..], r))
  }

  lemma {:induction false} NestShaped(p: Path, t: Tree, at: Path)
    requires Shaped(t, at + p)
    ensures Shaped(Nest(p, t), at)
    decreases |p|
  {
    if p == [] {
      assert at + p == at;
    } else {
      assert at + p == at + [p[0]] + p[1..];
      NestShaped(p[1..], t, at + [p[0]]);
    }
  }

  /** A chain reduces to the fold of its innermost child, nibble by nibble. */
  lemma {:induction false} NestReduces(p: Path, t: Tree, v: Values, at: Path, short: Encoding)
    requires Shaped(t, at + p)
    ensures Shaped(Nest(p, t), at)
    ensures Reduce(Nest(p, t), v, at, short) == FoldAll(p, Reduce(t, v, at + p, short))
    decreases |p|
  {
    NestShaped(p, t, at);
    if p == [] {
      assert at + p == at;
    } else {
      assert at + p == at + [p[0]] + p[1..];
      NestReduces(p[1..], t, v, at + [p[0]], short);
      var n := Nest(p, t);
      var rs := ChildResults(n, v, at, short);
      assert forall k: Nibble :: k != p[0] ==> rs[k] == EmptyR;
      BranchCases(n, v, at, short);
      if rs[p[0]].EmptyR? {
        assert Live(rs) == {};
      } else {
        assert Live(rs) == {p[0]};
        assert OnlyLive(rs, p[0]);
      }
    }
  }

  lemma {:induction false} NestGrows(p: Path, t: Tree)
    requires p != []
    ensures t < Nest(p, t)
    decreases |p|
  {
    var ch := Nest(p, t).children;
    assert ch[p[0]] == Nest(p[1..], t);
    assert ch[p[0]] < Nest(p, t);
    if p[1..] != [] {
      NestGrows(p[1..], t);
    }
  }

  // ----- values that did not change ---------------------------------------------------

  /** Every leaf of the tree has the same value in both sets. */
  predicate Same(t: Tree, v: Values, v': Values) {
    match t
    case SlotT(_, i) => SlotAt(v, i) == SlotAt(v', i)
    case AccountT(_, i, storage) => AccountAt(v, i) == AccountAt(v', i) && Same(storage, v, v')
    case BranchT(ch) => forall k :: 0 <= k < |ch| ==> Same(ch[k], v, v')
    case _ => true
  }

  /** Unchanged values reduce, pack and finalize alike. */
  lemma {:induction false} SameReduces(t: Tree, v: Values, v': Values, at: Path, short: Encoding)
    requires Shaped(t, at) && Same(t, v, v')
    ensures Reduce(t, v, at, short) == Reduce(t, v', at, short)
    ensures Meaning(Reduce(t, v, at, short), v) == Meaning(Reduce(t, v', at, short), v')
    decreases t
  {
    if t.BranchT? {
      var rs, rs' := ChildResults(t, v, at, short), ChildResults(t, v', at, short);
      forall k: Nibble
        ensures rs[k] == rs'[k] && SlotRef(rs[k], v, short) == SlotRef(rs'[k], v', short)
        ensures Meaning(rs[k], v) == Meaning(rs[k], v')
        ensures FoldNibble(k, rs[k]) == FoldNibble(k, rs'[k])
        ensures Meaning(FoldNibble(k, rs[k]), v) == Meaning(FoldNibble(k, rs[k]), v')
      {
        SameReduces(t.children[k], v, v', at + [k], short);
      }
      assert rs == rs';
      BranchCases(t, v, at, short);
      BranchCases(t, v', at, short);
      if Live(rs) != {} && !exists k: Nibble :: OnlyLive(rs, k) {
        var i, j := TwoLive(rs);
        assert seq(16, (k: Nibble) => SlotRef(rs[k], v, short)) ==
               seq(16, (k: Nibble) => SlotRef(rs'[k], v', short));
      }
    } else if t.AccountT? {
      SameReduces(t.storage, v, v', [], short);
    }
  }

  lemma {:induction false} NestSame(p: Path, t: Tree, v: Values, v': Values)
    ensures Same(Nest(p, t), v, v') <==> Same(t, v, v')
    decreases |p|
  {
    if p != [] {
      NestSame(p[1..], t, v, v');
      assert Nest(p, t).children[p[0]] == Nest(p[1..], t);
    }
  }

  // ----- the orphan-sibling guard -------------------------------------------------------

  predicate TwoAnnounced(ch: seq<Tree>) {
    exists i, j :: 0 <= i < j < |ch| && !ch[i].EmptyT? && !ch[j].EmptyT?
  }

  /** No changed branch that the witness showed with two children is left with only a
      child the witness gives by hash. */
  ghost predicate GuardPasses(t: Tree, orig: Values, cur: Values, at: Path, short: Encoding)
    requires Shaped(t, at)
    decreases t
  {
    match t
    case BranchT(ch) =>
      && (forall k: Nibble :: GuardPasses(ch[k], orig, cur, at + [k], short))
      && (Same(t, orig, cur) || !TwoAnnounced(ch) ||
          forall k: Nibble :: ch[k].HashT? ==> !OnlyLive(ChildResults(t, cur, at, short), k))
    case AccountT(_, _, storage) => GuardPasses(storage, orig, cur, [], short)
    case _ => true
  }

  /** What the guard lets through can be folded. */
  lemma {:induction false} GuardFolds(t: Tree, orig: Values, cur: Values, at: Path, short: Encoding)
    requires Shaped(t, at) && GuardPasses(t, orig, cur, at, short)
    ensures Foldable(t, orig, cur, at, short)
    decreases t
  {
    if t.BranchT? {
      forall k: Nibble ensures Foldable(t.children[k], orig, cur, at + [k], short) {
        GuardFolds(t.children[k], orig, cur, at + [k], short);
      }
      var rs, rs' := ChildResults(t, orig, at, short), ChildResults(t, cur, at, short);
      forall k: Nibble | t.children[k].HashT? && OnlyLive(rs', k) ensures OnlyLive(rs, k) {
        if Same(t, orig, cur) {
          forall c: Nibble ensures rs[c] == rs'[c] {
            SameReduces(t.children[c], orig, cur, at + [c], short);
          }
          assert rs == rs';
        } else {
          assert forall c: Nibble :: c != k ==> t.children[c].EmptyT?;
          assert Live(rs) == {k};
        }
      }
    } else if t.AccountT? {
      GuardFolds(t.storage, orig, cur, [], short);
    }
  }

  lemma {:induction false} NestGuard(p: Path, t: Tree, orig: Values, cur: Values, at: Path, short: Encoding)
    requires Shaped(t, at + p)
    ensures Shaped(Nest(p, t), at)
    ensures GuardPasses(Nest(p, t), orig, cur, at, short) <==> GuardPasses(t, orig, cur, at + p, short)
    decreases |p|
  {
    NestShaped(p, t, at);
    if p == [] {
      assert at + p == at;
    } else {
      assert at + p == at + [p[0]] + p[1..];
      NestGuard(p[1..], t, orig, cur, at + [p[0]], short);
      var ch := Nest(p, t).children;
      assert ch[p[0]] == Nest(p[1..], t);
      assert forall k: Nibble :: k != p[0] ==> ch[k] == EmptyT;
      assert !TwoAnnounced(ch);
    }
  }
}
