/** Per-transaction originals (EIP-2200) and accessed sets (EIP-2929) over every run. */
module Warmth {
  import opened Journal
  import opened RollbackProofs

  /** A new transaction or system call: the next counter, an empty journal, an empty
      transient map, nothing pending and a receipt without logs. */
  function TxStart(s: Db): Db {
    s.(view := s.view.(transient := map[], pending := {}), journal := [], logs := [], counter := s.counter + 1)
  }

  lemma TxStartValid(s: Db)
    requires ViewOk(s.view, s.counter) && |s.txOriginal| == |s.view.values|
    ensures Valid(TxStart(s)) && Hot(TxStart(s))
    ensures forall i :: 0 <= i < |s.view.stamps| ==> TxStart(s).view.stamps[i] < TxStart(s).counter
    ensures forall i :: 0 <= i < |s.view.slotStamps| ==> TxStart(s).view.slotStamps[i] < TxStart(s).counter
  {
  }

  // ----- the transaction's original values ------------------------------------------------

  /** A warm slot's snapshot is its value at transaction start, a cold slot still has it. */
  ghost predicate Remembers(v: View, txOriginal: seq<nat>, start: seq<nat>, counter: nat) {
    && |v.values| == |start| && |v.slotStamps| == |start| && |txOriginal| == |start|
    && (forall i :: 0 <= i < |start| && v.slotStamps[i] == counter ==> txOriginal[i] == start[i])
    && (forall i :: 0 <= i < |start| && v.slotStamps[i] < counter ==> v.values[i] == start[i])
  }

  /** ... at every stage of undoing, although undoing leaves the snapshots alone. */
  ghost predicate Originals(s: Db, start: seq<nat>) {
    forall n :: 0 <= n <= |s.journal| ==> Remembers(Base(s, n), s.txOriginal, start, s.counter)
  }

  /** Stores come after an access of the same slot. */
  predicate StoresWarm(s: Db, op: Op) {
    op.WriteSlot? ==> op.slot < |s.view.slotStamps| && s.view.slotStamps[op.slot] == s.counter
  }

  lemma SnapshotsKept(s: Db, op: Op, start: seq<nat>, n: nat)
    requires Valid(s) && Hot(s) && Enabled(s, op) && Originals(s, start) && n <= |s.journal|
    requires op.Rollback? ==> n <= op.cp
    ensures n <= |Step(s, op).journal| && Remembers(Base(Step(s, op), n), Step(s, op).txOriginal, start, s.counter)
  {
    StepBase(s, op, n);
    var r := Step(s, op);
    assert Remembers(Base(s, n), s.txOriginal, start, s.counter);
    assert Base(s, |s.journal|) == s.view;
    assert Remembers(Base(s, |s.journal|), s.txOriginal, start, s.counter);
    forall i | 0 <= i < |start| ensures r.txOriginal[i] == s.txOriginal[i] || r.txOriginal[i] == start[i] {
    }
  }

  lemma StepOriginals(s: Db, op: Op, start: seq<nat>)
    requires Valid(s) && Hot(s) && Enabled(s, op) && Originals(s, start) && StoresWarm(s, op)
    ensures Originals(Step(s, op), start)
  {
    var r := Step(s, op);
    forall n | 0 <= n <= |r.journal| ensures Remembers(Base(r, n), r.txOriginal, start, r.counter) {
      if n <= |s.journal| {
        SnapshotsKept(s, op, start, n);
      } else {
        assert Base(r, n) == r.view;
        assert Base(s, |s.journal|) == s.view;
        assert Remembers(Base(s, |s.journal|), s.txOriginal, start, s.counter);
      }
    }
  }

  ghost predicate AllStoresWarm(s: Db, ops: seq<Op>, n: nat)
    requires Valid(s) && RunOk(s, ops, n)
    decreases |ops|
  {
    ops == [] || (StoresWarm(s, ops[0]) && AllStoresWarm(After(s, ops[0]), ops[1..], n))
  }

  lemma {:induction false} RunOriginals(s: Db, ops: seq<Op>, n: nat, start: seq<nat>)
    requires Valid(s) && Hot(s) && RunOk(s, ops, n) && AllStoresWarm(s, ops, n) && Originals(s, start)
    ensures Originals(Run(s, ops, n), start)
    decreases |ops|
  {
    if ops != [] {
      StepHot(s, ops[0]);
      StepOriginals(s, ops[0], start);
      RunOriginals(After(s, ops[0]), ops[1..], n, start);
    }
  }

  /** Whenever a store reads the original value of its slot, after any accesses, loads,
      stores, frames and reverts of this transaction, it reads the value the slot had
      when the transaction began. */
  lemma OriginalIsStartValue(s: Db, ops: seq<Op>, i: nat)
    requires ViewOk(s.view, s.counter) && |s.txOriginal| == |s.view.values|
    requires Valid(TxStart(s)) && RunOk(TxStart(s), ops, 0) && AllStoresWarm(TxStart(s), ops, 0)
    requires i < |s.view.slotStamps|
    ensures var r := Run(TxStart(s), ops, 0);
            && |r.view.slotStamps| == |r.txOriginal| == |s.view.values|
            && (r.view.slotStamps[i] == r.counter ==> r.txOriginal[i] == s.view.values[i])
            && (r.view.slotStamps[i] != r.counter ==> r.view.values[i] == s.view.values[i])
  {
    TxStartValid(s);
    var start := s.view.values;
    RunOriginals(TxStart(s), ops, 0, start);
    var r := Run(TxStart(s), ops, 0);
    assert Base(r, |r.journal|) == r.view;
    assert Remembers(Base(r, |r.journal|), r.txOriginal, start, r.counter);
  }

  // ----- accessed sets ---------------------------------------------------------------------

  /** The keys of the table rows. */
  datatype Tables = Tables(addresses: seq<Address>, keys: seq<SlotKey>)

  predicate RowsOf(t: Tables, s: Db) {
    |t.addresses| == |s.view.stamps| && |t.keys| == |s.view.slotStamps|
  }

  predicate Distinct(t: Tables) {
    && (forall i, j :: 0 <= i < j < |t.addresses| ==> t.addresses[i] != t.addresses[j])
    && (forall i, j :: 0 <= i < j < |t.keys| ==> t.keys[i] != t.keys[j])
  }

  /** Warm by the stamp of its row, or of the side table when it has no row. */
  ghost predicate IsWarmAccount(v: View, t: Tables, counter: nat, a: Address)
    requires |t.addresses| == |v.stamps|
  {
    if a in t.addresses then exists i :: 0 <= i < |t.addresses| && t.addresses[i] == a && v.stamps[i] == counter
    else StampOf(v.warmAccounts, a) == counter
  }

  ghost predicate IsWarmSlot(v: View, t: Tables, counter: nat, k: SlotKey)
    requires |t.keys| == |v.slotStamps|
  {
    if k in t.keys then exists i :: 0 <= i < |t.keys| && t.keys[i] == k && v.slotStamps[i] == counter
    else StampOf(v.warmSlots, k) == counter
  }

  /** The EIP-2929 machine: the accessed sets, and the sets saved at each checkpoint. */
  datatype Sets = Sets(accounts: set<Address>, slots: set<SlotKey>)
  datatype Accessed = Accessed(now: Sets, saved: map<nat, Sets>)

  /** What a step accesses, by the rules of the EIP: the sets grow with accesses and
      with nothing else, and reverts restore them. */
  function AccessStep(acc: Accessed, t: Tables, s: Db, op: Op): Accessed
    requires RowsOf(t, s) && Valid(s) && Enabled(s, op)
    requires op.Rollback? ==> op.cp in acc.saved
  {
    match op
    case Checkpoint => acc.(saved := acc.saved[|s.journal| := acc.now])
    case Rollback(cp) => acc.(now := acc.saved[cp])
    case WarmAccount(i) => AddAccount(acc, t.addresses[i])
    case WarmAccountKey(a) => AddAccount(acc, a)
    case WarmSlot(i) => AddSlot(acc, t.keys[i])
    case WarmSlotKey(k) => AddSlot(acc, k)
    case _ => acc
  }

  function AddAccount(acc: Accessed, a: Address): Accessed {
    acc.(now := acc.now.(accounts := acc.now.accounts + {a}))
  }

  function AddSlot(acc: Accessed, k: SlotKey): Accessed {
    acc.(now := acc.now.(slots := acc.now.slots + {k}))
  }

  ghost predicate SetsOf(sets: Sets, v: View, t: Tables, counter: nat)
    requires |t.addresses| == |v.stamps| && |t.keys| == |v.slotStamps|
  {
    && (forall a :: a in sets.accounts <==> IsWarmAccount(v, t, counter, a))
    && (forall k :: k in sets.slots <==> IsWarmSlot(v, t, counter, k))
  }

  /** Stamps spell the accessed sets, now and at every open checkpoint. */
  ghost predicate Refines(acc: Accessed, s: Db, t: Tables)
    requires Valid(s) && RowsOf(t, s)
  {
    && SetsOf(acc.now, s.view, t, s.counter)
    && forall p :: 0 <= p < |s.journal| && s.journal[p].Marker? ==> p in acc.saved && SavedOk(acc.saved[p], s, t, p)
  }

  ghost predicate SavedOk(sets: Sets, s: Db, t: Tables, p: nat) {
    && p <= |s.journal|
    && |Base(s, p).stamps| == |t.addresses| && |Base(s, p).slotStamps| == |t.keys|
    && SetsOf(sets, Base(s, p), t, s.counter)
  }

  /** Side-table keys have no row. */
  predicate Rowless(op: Op, t: Tables) {
    (op.WarmAccountKey? ==> op.address !in t.addresses) && (op.WarmSlotKey? ==> op.key !in t.keys)
  }

  lemma AccountRowWarmed(v: View, w: View, t: Tables, counter: nat, i: nat, sets: Sets)
    requires |t.addresses| == |v.stamps| == |w.stamps| && |t.keys| == |v.slotStamps| && i < |t.addresses|
    requires Distinct(t) && SetsOf(sets, v, t, counter)
    requires w.stamps == v.stamps[i := counter] && w.warmAccounts == v.warmAccounts
    requires w.slotStamps == v.slotStamps && w.warmSlots == v.warmSlots
    ensures SetsOf(sets.(accounts := sets.accounts + {t.addresses[i]}), w, t, counter)
  {
    forall a ensures a in sets.accounts + {t.addresses[i]} <==> IsWarmAccount(w, t, counter, a) {
      if IsWarmAccount(v, t, counter, a) && a in t.addresses {
        var k :| 0 <= k < |t.addresses| && t.addresses[k] == a && v.stamps[k] == counter;
        assert w.stamps[k] == counter;
      }
      if a == t.addresses[i] {
        assert w.stamps[i] == counter;
      }
    }
    forall k ensures k in sets.slots <==> IsWarmSlot(w, t, counter, k) {
      assert IsWarmSlot(w, t, counter, k) <==> IsWarmSlot(v, t, counter, k);
    }
  }

  lemma SlotRowWarmed(v: View, w: View, t: Tables, counter: nat, i: nat, sets: Sets)
    requires |t.keys| == |v.slotStamps| == |w.slotStamps| && |t.addresses| == |v.stamps| && i < |t.keys|
    requires Distinct(t) && SetsOf(sets, v, t, counter)
    requires w.slotStamps == v.slotStamps[i := counter] && w.warmSlots == v.warmSlots
    requires w.stamps == v.stamps && w.warmAccounts == v.warmAccounts
    ensures SetsOf(sets.(slots := sets.slots + {t.keys[i]}), w, t, counter)
  {
    forall k ensures k in sets.slots + {t.keys[i]} <==> IsWarmSlot(w, t, counter, k) {
      if IsWarmSlot(v, t, counter, k) && k in t.keys {
        var n :| 0 <= n < |t.keys| && t.keys[n] == k && v.slotStamps[n] == counter;
        assert w.slotStamps[n] == counter;
      }
      if k == t.keys[i] {
        assert w.slotStamps[i] == counter;
      }
    }
    forall a ensures a in sets.accounts <==> IsWarmAccount(w, t, counter, a) {
      assert IsWarmAccount(w, t, counter, a) <==> IsWarmAccount(v, t, counter, a);
    }
  }

  /** The stamps that decide warmth are the same. */
  predicate SameWarmth(v: View, w: View) {
    v.stamps == w.stamps && v.slotStamps == w.slotStamps &&
    v.warmAccounts == w.warmAccounts && v.warmSlots == w.warmSlots
  }

  lemma SameSets(v: View, w: View, t: Tables, counter: nat, sets: Sets)
    requires |t.keys| == |v.slotStamps| && |t.addresses| == |v.stamps|
    requires SetsOf(sets, v, t, counter) && SameWarmth(v, w)
    ensures SetsOf(sets, w, t, counter)
  {
    forall a ensures IsWarmAccount(w, t, counter, a) <==> IsWarmAccount(v, t, counter, a) {}
    forall k ensures IsWarmSlot(w, t, counter, k) <==> IsWarmSlot(v, t, counter, k) {}
  }

  lemma KeyWarmed(v: View, w: View, t: Tables, counter: nat, a: Address, sets: Sets)
    requires |t.keys| == |v.slotStamps| && |t.addresses| == |v.stamps| && a !in t.addresses && counter > 0
    requires SetsOf(sets, v, t, counter)
    requires w.warmAccounts == v.warmAccounts[a := counter] && w.stamps == v.stamps
    requires w.slotStamps == v.slotStamps && w.warmSlots == v.warmSlots
    ensures SetsOf(sets.(accounts := sets.accounts + {a}), w, t, counter)
  {
    forall b ensures b in sets.accounts + {a} <==> IsWarmAccount(w, t, counter, b) {
      assert b != a ==> (IsWarmAccount(w, t, counter, b) <==> IsWarmAccount(v, t, counter, b));
    }
    forall k ensures k in sets.slots <==> IsWarmSlot(w, t, counter, k) {
      assert IsWarmSlot(w, t, counter, k) <==> IsWarmSlot(v, t, counter, k);
    }
  }

  lemma SlotKeyWarmed(v: View, w: View, t: Tables, counter: nat, key: SlotKey, sets: Sets)
    requires |t.keys| == |v.slotStamps| && |t.addresses| == |v.stamps| && key !in t.keys && counter > 0
    requires SetsOf(sets, v, t, counter)
    requires w.warmSlots == v.warmSlots[key := counter] && w.slotStamps == v.slotStamps
    requires w.stamps == v.stamps && w.warmAccounts == v.warmAccounts
    ensures SetsOf(sets.(slots := sets.slots + {key}), w, t, counter)
  {
    forall k ensures k in sets.slots + {key} <==> IsWarmSlot(w, t, counter, k) {
      assert k != key ==> (IsWarmSlot(w, t, counter, k) <==> IsWarmSlot(v, t, counter, k));
    }
    forall a ensures a in sets.accounts <==> IsWarmAccount(w, t, counter, a) {
      assert IsWarmAccount(w, t, counter, a) <==> IsWarmAccount(v, t, counter, a);
    }
  }

  /** A write that stamps a row no access has warmed. */
  predicate ColdWrite(s: Db, op: Op) {
    match op
    case WriteNonce(i, _) => i < |s.view.stamps| && s.view.stamps[i] < s.counter
    case WriteBalance(i, _) => i < |s.view.stamps| && s.view.stamps[i] < s.counter
    case WriteCode(i, _) => i < |s.view.stamps| && s.view.stamps[i] < s.counter
    case WriteSlot(i, _) => i < |s.view.slotStamps| && s.view.slotStamps[i] < s.counter
    case _ => false
  }

  /** Writes and touches of warm rows change no stamp. */
  lemma WarmStays(s: Db, op: Op)
    requires Valid(s) && Enabled(s, op) && !ColdWrite(s, op) && !ColdTouch(s, op)
    requires !op.Rollback? && !op.WarmAccount? && !op.WarmSlot? && !op.WarmAccountKey? && !op.WarmSlotKey?
    ensures SameWarmth(s.view, Step(s, op).view)
  {
  }

  /** The sets after a step are those the stamps spell after it. */
  lemma NowRefines(acc: Accessed, s: Db, t: Tables, op: Op)
    requires Valid(s) && Enabled(s, op) && RowsOf(t, s) && Distinct(t)
    requires Refines(acc, s, t) && !ColdTouch(s, op) && !ColdWrite(s, op) && Rowless(op, t)
    requires !op.Rollback?
    ensures RowsOf(t, Step(s, op)) && SetsOf(AccessStep(acc, t, s, op).now, Step(s, op).view, t, s.counter)
  {
    var v, r, sets := s.view, Step(s, op), acc.now;
    StepValid(s, op);
    match op
    case WarmAccount(i) =>
      assert r.view.stamps == v.stamps[i := s.counter];
      AccountRowWarmed(v, r.view, t, s.counter, i, sets);
    case WarmSlot(i) =>
      assert r.view.slotStamps == v.slotStamps[i := s.counter];
      SlotRowWarmed(v, r.view, t, s.counter, i, sets);
    case WarmAccountKey(a) =>
      assert StampOf(v.warmAccounts, a) == s.counter ==> v.warmAccounts[a := s.counter] == v.warmAccounts;
      KeyWarmed(v, r.view, t, s.counter, a, sets);
    case WarmSlotKey(k) =>
      assert StampOf(v.warmSlots, k) == s.counter ==> v.warmSlots[k := s.counter] == v.warmSlots;
      SlotKeyWarmed(v, r.view, t, s.counter, k, sets);
    case _ =>
      WarmStays(s, op);
      SameSets(v, r.view, t, s.counter, sets);
  }

  /** A row that is not in its set and gets the current stamp is one too many. */
  lemma ColdRowAppears(acc: Accessed, s: Db, t: Tables, op: Op)
    requires Valid(s) && Enabled(s, op) && RowsOf(t, s) && Distinct(t)
    requires SetsOf(acc.now, s.view, t, s.counter) && (ColdTouch(s, op) || ColdWrite(s, op))
    ensures RowsOf(t, Step(s, op)) && !SetsOf(acc.now, Step(s, op).view, t, s.counter)
  {
    StepValid(s, op);
    var v, r := s.view, Step(s, op);
    if op.WriteSlot? || op.TouchSlot? {
      var k := t.keys[op.slot];
      assert !IsWarmSlot(v, t, s.counter, k);
      assert t.keys[op.slot] == k && r.view.slotStamps[op.slot] == s.counter;
      assert IsWarmSlot(r.view, t, s.counter, k);
    } else {
      var a := t.addresses[op.idx];
      assert !IsWarmAccount(v, t, s.counter, a);
      assert t.addresses[op.idx] == a && r.view.stamps[op.idx] == s.counter;
      assert IsWarmAccount(r.view, t, s.counter, a);
    }
  }

  /** One step keeps stamps and accessed sets together if and only if it neither touches
      nor writes a row that no access has warmed. */
  lemma StepRefinesIff(acc: Accessed, s: Db, t: Tables, op: Op)
    requires Valid(s) && Enabled(s, op) && RowsOf(t, s) && Distinct(t)
    requires Refines(acc, s, t) && Rowless(op, t) && !op.Rollback?
    ensures RowsOf(t, Step(s, op))
    ensures SetsOf(AccessStep(acc, t, s, op).now, Step(s, op).view, t, s.counter) <==>
            !ColdTouch(s, op) && !ColdWrite(s, op)
  {
    if ColdTouch(s, op) || ColdWrite(s, op) {
      ColdRowAppears(acc, s, t, op);
    } else {
      NowRefines(acc, s, t, op);
    }
  }

  lemma SavedKept(acc: Accessed, s: Db, t: Tables, op: Op, p: nat)
    requires Valid(s) && Hot(s) && Enabled(s, op) && RowsOf(t, s)
    requires Refines(acc, s, t) && !ColdTouch(s, op)
    requires p < |Step(s, op).journal| && Step(s, op).journal[p].Marker?
    requires op.Rollback? ==> op.cp in acc.saved
    ensures p in AccessStep(acc, t, s, op).saved && SavedOk(AccessStep(acc, t, s, op).saved[p], Step(s, op), t, p)
  {
    var r := Step(s, op);
    if p < |s.journal| {
      StepBase(s, op, p);
      assert r.journal[p] == s.journal[p];
      assert SavedOk(acc.saved[p], s, t, p);
    } else {
      assert op.Checkpoint?;
      StepBase(s, op, p);
      assert Base(s, p) == s.view;
    }
  }

  lemma StepRefines(acc: Accessed, s: Db, t: Tables, op: Op)
    requires Valid(s) && Hot(s) && Enabled(s, op) && RowsOf(t, s) && Distinct(t)
    requires Refines(acc, s, t) && !ColdTouch(s, op) && !ColdWrite(s, op) && Rowless(op, t)
    ensures op.Rollback? ==> op.cp in acc.saved
    ensures Valid(Step(s, op)) && RowsOf(t, Step(s, op)) && Refines(AccessStep(acc, t, s, op), Step(s, op), t)
  {
    StepValid(s, op);
    var r := Step(s, op);
    if op.Rollback? {
      assert SavedOk(acc.saved[op.cp], s, t, op.cp);
    } else {
      NowRefines(acc, s, t, op);
    }
    forall p | 0 <= p < |r.journal| && r.journal[p].Marker?
      ensures p in AccessStep(acc, t, s, op).saved && SavedOk(AccessStep(acc, t, s, op).saved[p], r, t, p)
    {
      SavedKept(acc, s, t, op, p);
    }
  }

  /** A run in which accesses come before loads and writes, with keys in the right table. */
  ghost predicate Orderly(s: Db, ops: seq<Op>, n: nat, t: Tables)
    requires Valid(s) && RunOk(s, ops, n)
    decreases |ops|
  {
    ops == [] ||
    (!ColdTouch(s, ops[0]) && !ColdWrite(s, ops[0]) && Rowless(ops[0], t) && Orderly(After(s, ops[0]), ops[1..], n, t))
  }

  ghost function AccessRun(acc: Accessed, s: Db, ops: seq<Op>, n: nat, t: Tables): (r: Accessed)
    requires Valid(s) && Hot(s) && RowsOf(t, s) && Distinct(t) && RunOk(s, ops, n) && Orderly(s, ops, n, t)
    requires Refines(acc, s, t)
    decreases |ops|
  {
    if ops == [] then acc
    else
      StepRefines(acc, s, t, ops[0]);
      StepHot(s, ops[0]);
      AccessRun(AccessStep(acc, t, s, ops[0]), After(s, ops[0]), ops[1..], n, t)
  }

  /** Warmth by stamp is membership in the accessed sets, over every run. */
  lemma {:induction false} RunRefines(acc: Accessed, s: Db, ops: seq<Op>, n: nat, t: Tables)
    requires Valid(s) && Hot(s) && RowsOf(t, s) && Distinct(t) && RunOk(s, ops, n) && Orderly(s, ops, n, t)
    requires Refines(acc, s, t)
    ensures var r := Run(s, ops, n);
            RowsOf(t, r) && Refines(AccessRun(acc, s, ops, n, t), r, t)
    decreases |ops|
  {
    if ops != [] {
      StepRefines(acc, s, t, ops[0]);
      StepHot(s, ops[0]);
      RunRefines(AccessStep(acc, t, s, ops[0]), After(s, ops[0]), ops[1..], n, t);
    }
  }

  /** A new transaction or system call starts with empty sets. */
  lemma EmptiedAtStart(s: Db, t: Tables)
    requires ViewOk(s.view, s.counter) && |s.txOriginal| == |s.view.values| && RowsOf(t, s)
    ensures Valid(TxStart(s)) && RowsOf(t, TxStart(s))
    ensures Refines(Accessed(Sets({}, {}), map[]), TxStart(s), t)
  {
    TxStartValid(s);
  }
}
