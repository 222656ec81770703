/** From the parent's root to the new one: read the witness, check its root, execute
    against the tables, recompute the root. */
module StateTransition {
  import opened Basics
  import opened TrieTerms
  import opened TrieReduce
  import opened TrieSoundness
  import opened TrieWitness
  import opened StateStore
  import opened StateRootEngine
  import opened LeafRows

  /** What execution does to the two tables, one row at a time. */
  datatype Write = SlotWrite(row: nat, value: int) | AccountWrite(row: nat, account: Account)

  predicate RowExists(w: Write, accounts: nat, slots: nat) {
    match w
    case SlotWrite(i, _) => i < slots
    case AccountWrite(i, _) => i < accounts
  }

  predicate RowsExist(ws: seq<Write>, accounts: nat, slots: nat) {
    forall k :: 0 <= k < |ws| ==> RowExists(ws[k], accounts, slots)
  }

  function Applied(v: Values, w: Write): Values {
    match w
    case SlotWrite(i, x) => if i < |v.slots| then v.(slots := v.slots[i := x]) else v
    case AccountWrite(i, a) => if i < |v.accounts| then v.(accounts := v.accounts[i := a]) else v
  }

  /** All writes, in order. */
  function AllApplied(v: Values, ws: seq<Write>): Values {
    if ws == [] then v else Applied(AllApplied(v, ws[..|ws| - 1]), ws[|ws| - 1])
  }

  predicate Touches(w: Write, slot: bool, i: nat) {
    w.SlotWrite? == slot && w.row == i
  }

  /** The last write of a row stays, and a row without one keeps its value. */
  lemma {:induction false} LastWriteStays(v: Values, ws: seq<Write>, i: nat)
    ensures |AllApplied(v, ws).slots| == |v.slots| && |AllApplied(v, ws).accounts| == |v.accounts|
    ensures i < |v.slots| ==> LastSlot(v, ws, i, AllApplied(v, ws).slots[i])
    ensures i < |v.accounts| ==> LastAccount(v, ws, i, AllApplied(v, ws).accounts[i])
    decreases |ws|
  {
    if ws != [] {
      var n := |ws| - 1;
      LastWriteStays(v, ws[..n], i);
      var u, u' := AllApplied(v, ws[..n]), AllApplied(v, ws);
      if i < |v.slots| && !Touches(ws[n], true, i) { LastSlotMore(v, ws, i, u.slots[i]); }
      if i < |v.accounts| && !Touches(ws[n], false, i) { LastAccountMore(v, ws, i, u.accounts[i]); }
    }
  }

  predicate LastSlot(v: Values, ws: seq<Write>, i: nat, x: int)
    requires i < |v.slots|
  {
    || (x == v.slots[i] && forall k :: 0 <= k < |ws| ==> !Touches(ws[k], true, i))
    || (exists k :: 0 <= k < |ws| && ws[k] == SlotWrite(i, x) && forall l :: k < l < |ws| ==> !Touches(ws[l], true, i))
  }

  predicate LastAccount(v: Values, ws: seq<Write>, i: nat, a: Account)
    requires i < |v.accounts|
  {
    || (a == v.accounts[i] && forall k :: 0 <= k < |ws| ==> !Touches(ws[k], false, i))
    || (exists k :: 0 <= k < |ws| && ws[k] == AccountWrite(i, a) && forall l :: k < l < |ws| ==> !Touches(ws[l], false, i))
  }

  lemma LastSlotMore(v: Values, ws: seq<Write>, i: nat, x: int)
    requires i < |v.slots| && ws != [] && !Touches(ws[|ws| - 1], true, i) && LastSlot(v, ws[..|ws| - 1], i, x)
    ensures LastSlot(v, ws, i, x)
  {
    var ws' := ws[..|ws| - 1];
    assert forall k :: 0 <= k < |ws'| ==> ws'[k] == ws[k];
    if k :| 0 <= k < |ws'| && ws'[k] == SlotWrite(i, x) && forall l :: k < l < |ws'| ==> !Touches(ws'[l], true, i) {
      assert ws[k] == SlotWrite(i, x);
    }
  }

  lemma LastAccountMore(v: Values, ws: seq<Write>, i: nat, a: Account)
    requires i < |v.accounts| && ws != [] && !Touches(ws[|ws| - 1], false, i) && LastAccount(v, ws[..|ws| - 1], i, a)
    ensures LastAccount(v, ws, i, a)
  {
    var ws' := ws[..|ws| - 1];
    assert forall k :: 0 <= k < |ws'| ==> ws'[k] == ws[k];
    if k :| 0 <= k < |ws'| && ws'[k] == AccountWrite(i, a) && forall l :: k < l < |ws'| ==> !Touches(ws'[l], false, i) {
      assert ws[k] == AccountWrite(i, a);
    }
  }

  /** Values that did not change pass the guard. */
  lemma {:induction false} SameGuard(t: Tree, orig: Values, cur: Values, at: Path, short: Encoding)
    requires Shaped(t, at) && Same(t, orig, cur)
    ensures GuardPasses(t, orig, cur, at, short)
    decreases t
  {
    if t.BranchT? {
      forall k: Nibble ensures GuardPasses(t.children[k], orig, cur, at + [k], short) {
        SameGuard(t.children[k], orig, cur, at + [k], short);
      }
    } else if t.AccountT? {
      SameGuard(t.storage, orig, cur, [], short);
    }
  }

  lemma {:induction false} SameSelf(t: Tree, v: Values)
    ensures Same(t, v, v)
    decreases t
  {
    if t.BranchT? {
      forall k | 0 <= k < |t.children| ensures Same(t.children[k], v, v) { SameSelf(t.children[k], v); }
    } else if t.AccountT? {
      SameSelf(t.storage, v);
    }
  }

  // ----- execution -------------------------------------------------------------------------

  method ApplyWrite(e: Engine, w: Write, ghost root: Child, ghost wit: Wit)
    requires Sound(e.S()) && Fresh(e.S(), e.short) && e.Built(root, wit, [], 0)
    requires RowExists(w, |e.accounts|, |e.storages|)
    modifies e
    ensures Sound(e.S()) && Fresh(e.S(), e.short) && Originals(e.S()) == Originals(old(e.S()))
    ensures Currents(e.S()) == Applied(Currents(old(e.S())), w)
    ensures |e.accounts| == old(|e.accounts|) && |e.storages| == old(|e.storages|) && RowsKept(old(e.S()), e.S())
    ensures e.Built(root, wit, [], 0) && TreeOf(e.S(), root) == TreeOf(old(e.S()), root)
  {
    match w
    case SlotWrite(i, x) => e.SetSlot(i, x);
    case AccountWrite(i, a) => e.SetAccount(i, a);
  }

  /** A write to a row that does not exist halts. */
  method Execute(e: Engine, ws: seq<Write>, ghost root: Child, ghost wit: Wit) returns (ok: bool)
    requires Sound(e.S()) && Fresh(e.S(), e.short) && e.Built(root, wit, [], 0)
    modifies e
    ensures ok <==> RowsExist(ws, |e.accounts|, |e.storages|)
    ensures Sound(e.S()) && Fresh(e.S(), e.short) && Originals(e.S()) == Originals(old(e.S()))
    ensures ok ==> Currents(e.S()) == AllApplied(Currents(old(e.S())), ws)
    ensures |e.accounts| == old(|e.accounts|) && |e.storages| == old(|e.storages|) && RowsKept(old(e.S()), e.S())
    ensures e.Built(root, wit, [], 0) && TreeOf(e.S(), root) == TreeOf(old(e.S()), root)
  {
    ghost var s := e.S();
    assert ws[..0] == [];
    for n := 0 to |ws|
      invariant Sound(e.S()) && Fresh(e.S(), e.short) && Originals(e.S()) == Originals(s)
      invariant Currents(e.S()) == AllApplied(Currents(s), ws[..n])
      invariant forall k :: 0 <= k < n ==> RowExists(ws[k], |e.accounts|, |e.storages|)
      invariant e.Built(root, wit, [], 0) && TreeOf(e.S(), root) == TreeOf(s, root)
      invariant |e.accounts| == |s.accounts| && |e.storages| == |s.storages| && RowsKept(s, e.S())
    {
      if !RowExists(ws[n], |e.accounts|, |e.storages|) { return false; }
      ApplyWrite(e, ws[n], root, wit);
      assert ws[..n + 1][..n] == ws[..n];
    }
    assert ws[..|ws|] == ws;
    ok := true;
  }

  // ----- the whole transition -------------------------------------------------------------------

  /** The root of the tree below `root` under one value set, computed without caches. */
  ghost function RootUnder(s: Store, root: Child, v: Values, short: Encoding): Hash
    requires Aligned(s) && Known(s, root) && Shaped(TreeOf(s, root), [])
  {
    Finalize(Reduce(TreeOf(s, root), v, [], short), v)
  }

  /** The witness proves the parent's root, every written row exists, and no branch folds
      onto a subtree known only by hash. */
  ghost predicate Accepted(s: Store, root: Child, w: Wit, parent: Hash, ws: seq<Write>, short: Encoding) {
    && NodeBuilt(s, root, w, [], 0, short)
    && RootUnder(s, root, Originals(s), short) == parent
    && RowsExist(ws, |s.accounts|, |s.storages|)
    && GuardPasses(TreeOf(s, root), Originals(s), Currents(s), [], short)
  }

  /** For every world the parent's root stands for, the new root is that of the world with
      exactly the writes, if and only if no empty extension has got a sibling. */
  ghost predicate RootExact(s: Store, root: Child, parent: Hash, newRoot: Hash, short: Encoding)
    requires Aligned(s) && Known(s, root) && Shaped(TreeOf(s, root), [])
  {
    var t, v' := TreeOf(s, root), Currents(s);
    forall pre, post {:trigger WorldUpdated(pre, post, t, v')} ::
      parent == StateRootOf(pre, short) && WorldUpdated(pre, post, t, v') ==>
        (newRoot == StateRootOf(post, short) <==> EmptyAlone(t, v', [], short) && StoragesAlone(t, v', [], short))
  }

  /** What an accepted transition gives. */
  ghost predicate Outcome(s: Store, root: Child, w: Wit, parent: Hash, ws: seq<Write>, newRoot: Hash, short: Encoding) {
    && NodeBuilt(s, root, w, [], 0, short)
    && Currents(s) == AllApplied(Originals(s), ws)
    && newRoot == RootUnder(s, root, Currents(s), short)
    && RootExact(s, root, parent, newRoot, short)
    && (NibblesGiven(w) ==> EmptyAlone(TreeOf(s, root), Currents(s), [], short) &&
                            StoragesAlone(TreeOf(s, root), Currents(s), [], short))
    && (ws == [] ==> newRoot == parent)
  }

  /** The guest's two root computations around an execution: accepts exactly the lawful
      witnesses within the node limit whose transition is accepted. */
  method Transition(e: Engine, w: Wit, parent: Hash, ws: seq<Write>) returns (ok: bool, root: Child, newRoot: Hash)
    requires e.Ready() && WellFormed(w, State) && e.Count() == 0 && e.accounts == [] && e.storages == []
    modifies e
    ensures ok <==> && Lawful(w, [], e.hash) && Tally(w, 0, e.limit).Some?
                    && Accepted(e.S(), root, w, parent, ws, e.short)
    ensures ok ==> Outcome(e.S(), root, w, parent, ws, newRoot, e.short)
    ensures ok ==> OneLeafPerRow(e.S(), TreeOf(e.S(), root), e.hash)
  {
    var oldRoot;
    ok, root, oldRoot := e.ReadWitness(w);
    newRoot := oldRoot;
    if !ok { return; }
    if oldRoot != parent { return false, root, newRoot; }
    UnwrittenValues(e.S());
    RowsAreLeaves(e.S(), root, w, e.hash, e.short);
    ok, newRoot := ExecuteAndFold(e, root, w, parent, ws);
  }

  method ExecuteAndFold(e: Engine, root: Child, ghost w: Wit, ghost parent: Hash, ws: seq<Write>)
    returns (ok: bool, newRoot: Hash)
    requires Sound(e.S()) && Fresh(e.S(), e.short) && Currents(e.S()) == Originals(e.S())
    requires WellFormed(w, State) && e.Built(root, w, [], 0)
    requires RootUnder(e.S(), root, Originals(e.S()), e.short) == parent
    requires OneLeafPerRow(e.S(), TreeOf(e.S(), root), e.hash)
    modifies e
    ensures ok <==> Accepted(e.S(), root, w, parent, ws, e.short)
    ensures ok ==> Outcome(e.S(), root, w, parent, ws, newRoot, e.short)
    ensures ok ==> OneLeafPerRow(e.S(), TreeOf(e.S(), root), e.hash)
  {
    newRoot := EmptyTrieRoot;
    ghost var s0 := e.S();
    ok := Execute(e, ws, root, w);
    if !ok { return; }
    ghost var s := e.S();
    RowsStayLeaves(s0, s, TreeOf(s, root), e.hash);
    ok, newRoot := e.CalculateNewStateRoot(root);
    Finished(s, e.S(), root, w, e.short);
    RowsStayLeaves(s, e.S(), TreeOf(s, root), e.hash);
    if ok { Concluded(e, root, w, parent, newRoot); }
  }

  /** An execution that writes nothing is accepted and reproduces the root. */
  lemma NothingWritten(s: Store, root: Child, w: Wit, parent: Hash, short: Encoding)
    requires NodeBuilt(s, root, w, [], 0, short) && Unwritten(s)
    requires RootUnder(s, root, Originals(s), short) == parent
    ensures Accepted(s, root, w, parent, [], short) && RootUnder(s, root, Currents(s), short) == parent
  {
    UnwrittenValues(s);
    SameSelf(TreeOf(s, root), Originals(s));
    SameGuard(TreeOf(s, root), Originals(s), Currents(s), [], short);
  }

  /** The second pass changes results only. */
  lemma Finished(s: Store, s': Store, root: Child, w: Wit, short: Encoding)
    requires Sound(s) && SameShape(s, s') && NodeBuilt(s, root, w, [], 0, short)
    ensures Sound(s') && NodeBuilt(s', root, w, [], 0, short) && TreeOf(s', root) == TreeOf(s, root)
    ensures Originals(s') == Originals(s) && Currents(s') == Currents(s)
    ensures RowsKept(s, s') && |s'.accounts| == |s.accounts| && |s'.storages| == |s.storages|
  {
    ShapeKeeps(s, s');
    assert SameLinks(s, s') && RowsKept(s, s');
    BuiltKept(s, s', root, w, [], 0, short);
  }

  lemma Concluded(e: Engine, root: Child, w: Wit, parent: Hash, newRoot: Hash)
    requires Sound(e.S()) && WellFormed(w, State) && e.Built(root, w, [], 0)
    requires RootUnder(e.S(), root, Originals(e.S()), e.short) == parent
    requires RootUnder(e.S(), root, Currents(e.S()), e.short) == newRoot
    requires GuardPasses(TreeOf(e.S(), root), Originals(e.S()), Currents(e.S()), [], e.short)
    ensures RootExact(e.S(), root, parent, newRoot, e.short)
    ensures NibblesGiven(w) ==> EmptyAlone(TreeOf(e.S(), root), Currents(e.S()), [], e.short) &&
                                StoragesAlone(TreeOf(e.S(), root), Currents(e.S()), [], e.short)
  {
    var t, v' := TreeOf(e.S(), root), Currents(e.S());
    forall pre, post | parent == StateRootOf(pre, e.short) && WorldUpdated(pre, post, t, v')
      ensures newRoot == StateRootOf(post, e.short) <==>
              EmptyAlone(t, v', [], e.short) && StoragesAlone(t, v', [], e.short)
    {
      e.NewRootSound(root, w, pre, post);
    }
    SpelledTree(t, w, State, [], 0, e.S());
    if NibblesGiven(w) { RealAlone(t, v', [], e.short); }
  }
}
