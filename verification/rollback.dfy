/** What a rollback restores, over every run of kernel steps. */
module RollbackProofs {
  import opened Journal

  // ----- runs ---------------------------------------------------------------------------

  /** A step, known to keep the database valid. */
  ghost function After(s: Db, op: Op): (r: Db)
    requires Valid(s) && Enabled(s, op)
    ensures Valid(r) && r == Step(s, op) && |r.view.stamps| == |s.view.stamps|
  {
    StepValid(s, op);
    Step(s, op)
  }

  /** No step halts, and no rollback reaches below the first `n` entries. */
  ghost predicate RunOk(s: Db, ops: seq<Op>, n: nat)
    requires Valid(s)
    decreases |ops|
  {
    ops == [] ||
    (Enabled(s, ops[0]) && (ops[0].Rollback? ==> ops[0].cp >= n) &&
     RunOk(After(s, ops[0]), ops[1..], n))
  }

  ghost function Run(s: Db, ops: seq<Op>, n: nat): (r: Db)
    requires Valid(s) && RunOk(s, ops, n)
    ensures Valid(r)
    decreases |ops|
  {
    if ops == [] then s
    else Run(After(s, ops[0]), ops[1..], n)
  }

  /** A touch outside the journal that makes a cold row warm. */
  predicate ColdTouch(s: Db, op: Op) {
    match op
    case TouchAccount(i) => i < |s.view.stamps| && s.view.stamps[i] < s.counter
    case TouchSlot(i) => i < |s.view.slotStamps| && s.view.slotStamps[i] < s.counter
    case _ => false
  }

  ghost predicate NoColdTouch(s: Db, ops: seq<Op>, n: nat)
    requires Valid(s) && RunOk(s, ops, n)
    decreases |ops|
  {
    ops == [] ||
    (!ColdTouch(s, ops[0]) && NoColdTouch(After(s, ops[0]), ops[1..], n))
  }

  // ----- rows with an entry are warm ---------------------------------------------------------

  predicate OnAccount(e: Entry, i: nat) {
    (e.NonceEntry? || e.BalanceEntry? || e.CodeEntry? || e.AccountWarmEntry?) && e.idx == i
  }

  predicate OnSlot(e: Entry, i: nat) {
    (e.StorageEntry? || e.StorageWarmEntry?) && e.slot == i
  }

  /** At every stage of undoing, a row that still has an entry is warm. */
  ghost predicate Hot(s: Db) {
    forall n, p :: 0 <= p < n <= |s.journal| ==> HotAt(s.journal[p], Base(s, n), s.counter)
  }

  predicate HotAt(e: Entry, v: View, counter: nat) {
    && (forall i :: 0 <= i < |v.stamps| && OnAccount(e, i) ==> v.stamps[i] == counter)
    && (forall i :: 0 <= i < |v.slotStamps| && OnSlot(e, i) ==> v.slotStamps[i] == counter)
  }

  /** Undoing entries on other rows commutes with a change of this row's stamp. */
  lemma {:induction false} UndoSkipsAccount(v: View, j: seq<Entry>, n: nat, i: nat, t: nat)
    requires n <= |j| && i < |v.stamps|
    requires forall p :: 0 <= p < |j| ==> !OnAccount(j[p], i)
    ensures i < |UndoTo(v, j, n).stamps|
    ensures UndoTo(v.(stamps := v.stamps[i := t]), j, n) ==
            UndoTo(v, j, n).(stamps := UndoTo(v, j, n).stamps[i := t])
    ensures UndoTo(v, j, n).stamps[i] == v.stamps[i]
    decreases |j|
  {
    if |j| > n {
      var e := j[|j| - 1];
      assert !OnAccount(e, i);
      AccountCommutes(v, e, i, t);
      UndoSkipsAccount(Undo(v, e), j[..|j| - 1], n, i, t);
    }
  }

  lemma AccountCommutes(v: View, e: Entry, i: nat, t: nat)
    requires i < |v.stamps| && !OnAccount(e, i)
    ensures |Undo(v, e).stamps| == |v.stamps| && Undo(v, e).stamps[i] == v.stamps[i]
    ensures Undo(v.(stamps := v.stamps[i := t]), e) == Undo(v, e).(stamps := Undo(v, e).stamps[i := t])
  {
    if (e.NonceEntry? || e.BalanceEntry? || e.CodeEntry? || e.AccountWarmEntry?) && e.idx < |v.stamps| {
      assert v.stamps[i := t][e.idx := e.stamp] == v.stamps[e.idx := e.stamp][i := t];
    }
  }

  lemma {:induction false} UndoSkipsSlot(v: View, j: seq<Entry>, n: nat, i: nat, t: nat)
    requires n <= |j| && i < |v.slotStamps|
    requires forall p :: 0 <= p < |j| ==> !OnSlot(j[p], i)
    ensures i < |UndoTo(v, j, n).slotStamps|
    ensures UndoTo(v.(slotStamps := v.slotStamps[i := t]), j, n) ==
            UndoTo(v, j, n).(slotStamps := UndoTo(v, j, n).slotStamps[i := t])
    ensures UndoTo(v, j, n).slotStamps[i] == v.slotStamps[i]
    decreases |j|
  {
    if |j| > n {
      var e := j[|j| - 1];
      assert !OnSlot(e, i);
      SlotCommutes(v, e, i, t);
      UndoSkipsSlot(Undo(v, e), j[..|j| - 1], n, i, t);
    }
  }

  lemma SlotCommutes(v: View, e: Entry, i: nat, t: nat)
    requires i < |v.slotStamps| && !OnSlot(e, i)
    ensures |Undo(v, e).slotStamps| == |v.slotStamps| && Undo(v, e).slotStamps[i] == v.slotStamps[i]
    ensures Undo(v.(slotStamps := v.slotStamps[i := t]), e) ==
            Undo(v, e).(slotStamps := Undo(v, e).slotStamps[i := t])
  {
    if (e.StorageEntry? || e.StorageWarmEntry?) && e.slot < |v.slotStamps| {
      assert v.slotStamps[i := t][e.slot := e.stamp] == v.slotStamps[e.slot := e.stamp][i := t];
    }
  }

  /** A cold row has no entry. */
  lemma ColdHasNoEntry(s: Db)
    requires Valid(s) && Hot(s)
    ensures forall i, p :: 0 <= i < |s.view.stamps| && s.view.stamps[i] < s.counter && 0 <= p < |s.journal| ==>
              !OnAccount(s.journal[p], i)
    ensures forall i, p :: 0 <= i < |s.view.slotStamps| && s.view.slotStamps[i] < s.counter && 0 <= p < |s.journal| ==>
              !OnSlot(s.journal[p], i)
  {
    forall p | 0 <= p < |s.journal| ensures HotAt(s.journal[p], s.view, s.counter) {
      assert Base(s, |s.journal|) == s.view;
    }
  }

  // ----- one step ------------------------------------------------------------------------------

  /** A step other than a rollback or a touch is undone by the entry it pushes. */
  lemma PushUndoes(s: Db, op: Op)
    requires Valid(s) && Enabled(s, op) && !op.Rollback? && !ColdTouch(s, op)
    ensures var r := Step(s, op);
            || (r.journal == s.journal && r.view == s.view)
            || (|r.journal| == |s.journal| + 1 && r.journal[..|s.journal|] == s.journal &&
                Undo(r.view, r.journal[|s.journal|]) == s.view)
  {
    var r := Step(s, op);
    if r.journal != s.journal {
      assert r.journal[..|s.journal|] == s.journal;
      WriteUndone(s, op);
    }
  }

  lemma WriteUndone(s: Db, op: Op)
    requires Valid(s) && Enabled(s, op) && !op.Rollback? && Step(s, op).journal != s.journal
    ensures var r := Step(s, op);
            |r.journal| == |s.journal| + 1 && Undo(r.view, r.journal[|s.journal|]) == s.view
  {
    var v := s.view;
    match op
    case WriteTransient(k, x) =>
      assert k in v.transient ==> v.transient[k := x][k := v.transient[k]] == v.transient;
      assert k !in v.transient ==> v.transient[k := x] - {k} == v.transient;
    case WarmAccountKey(a) =>
      PutBack(v.warmAccounts, a, s.counter);
    case WarmSlotKey(k) =>
      PutBack(v.warmSlots, k, s.counter);
    case Destruct(i) =>
      assert i in v.pending ==> v.pending + {i} == v.pending;
      assert i !in v.pending ==> v.pending + {i} - {i} == v.pending;
    case _ =>
  }

  lemma PutBack<K(!new)>(m: map<K, nat>, k: K, counter: nat)
    requires StampsOk(m, counter) && counter > 0
    ensures PutStamp(PutStamp(m, k, counter), k, StampOf(m, k)) == m
  {
  }

  /** How a step changes the view as of the first `n` entries: not at all, except
      that a touch outside the journal makes its cold row warm there too. */
  lemma StepBase(s: Db, op: Op, n: nat)
    requires Valid(s) && Hot(s) && Enabled(s, op) && n <= |s.journal|
    requires op.Rollback? ==> op.cp >= n
    ensures var r := Step(s, op);
            && n <= |r.journal| && r.journal[..n] == s.journal[..n]
            && (!ColdTouch(s, op) ==> Base(r, n) == Base(s, n))
            && (ColdTouch(s, op) && op.TouchAccount? ==>
                  && op.idx < |Base(s, n).stamps| && Base(s, n).stamps[op.idx] < s.counter
                  && Base(r, n) == Base(s, n).(stamps := Base(s, n).stamps[op.idx := s.counter]))
            && (ColdTouch(s, op) && op.TouchSlot? ==>
                  && op.slot < |Base(s, n).slotStamps| && Base(s, n).slotStamps[op.slot] < s.counter
                  && Base(r, n) == Base(s, n).(slotStamps := Base(s, n).slotStamps[op.slot := s.counter]))
  {
    var r := Step(s, op);
    if op.Rollback? {
      UndoInStages(s.view, s.journal, op.cp, n);
      assert s.journal[..op.cp][..n] == s.journal[..n];
    } else if ColdTouch(s, op) {
      ColdHasNoEntry(s);
      if op.TouchAccount? {
        UndoSkipsAccount(s.view, s.journal, n, op.idx, s.counter);
      } else {
        UndoSkipsSlot(s.view, s.journal, n, op.slot, s.counter);
      }
    } else {
      PushUndoes(s, op);
      if r.journal != s.journal {
        assert r.journal == s.journal + [r.journal[|s.journal|]];
        UndoPushed(r.view, s.journal, r.journal[|s.journal|], n);
      }
    }
  }

  lemma StepHot(s: Db, op: Op)
    requires Valid(s) && Hot(s) && Enabled(s, op)
    ensures Valid(Step(s, op)) && Hot(Step(s, op))
  {
    StepValid(s, op);
    var r := Step(s, op);
    forall n, p | 0 <= p < n <= |r.journal| ensures HotAt(r.journal[p], Base(r, n), r.counter) {
      if op.Rollback? {
        StepBase(s, op, n);
        assert r.journal[p] == s.journal[p];
      } else if n <= |s.journal| {
        StepBase(s, op, n);
        assert r.journal[p] == r.journal[..n][p] == s.journal[..n][p] == s.journal[p];
        assert HotAt(s.journal[p], Base(s, n), s.counter);
      } else {
        NewestHot(s, op, p);
      }
    }
  }

  lemma NewestHot(s: Db, op: Op, p: nat)
    requires Valid(s) && Hot(s) && Enabled(s, op) && !op.Rollback?
    requires |Step(s, op).journal| > |s.journal| && p < |Step(s, op).journal|
    ensures HotAt(Step(s, op).journal[p], Step(s, op).view, s.counter)
  {
    if p < |s.journal| {
      assert Base(s, |s.journal|) == s.view;
      assert HotAt(s.journal[p], Base(s, |s.journal|), s.counter);
    }
  }

  // ----- whole runs -------------------------------------------------------------------------------

  /** Everything but the warm stamps of table rows. */
  function Unstamped(v: View): View {
    v.(stamps := [], slotStamps := [])
  }

  /** `b` is `a` with some rows made warm. */
  ghost predicate Warmer(a: View, b: View) {
    && Unstamped(a) == Unstamped(b)
    && |a.stamps| == |b.stamps| && |a.slotStamps| == |b.slotStamps|
    && (forall i :: 0 <= i < |a.stamps| ==> a.stamps[i] <= b.stamps[i])
    && (forall i :: 0 <= i < |a.slotStamps| ==> a.slotStamps[i] <= b.slotStamps[i])
  }

  /** Over a run, the view as of the first `n` entries changes exactly when a touch
      outside the journal warms a cold row. */
  lemma {:induction false} RunBase(s: Db, ops: seq<Op>, n: nat)
    requires Valid(s) && Hot(s) && n <= |s.journal| && RunOk(s, ops, n)
    ensures var r := Run(s, ops, n);
            && Hot(r) && n <= |r.journal| && r.journal[..n] == s.journal[..n]
            && r.counter == s.counter
            && Warmer(Base(s, n), Base(r, n))
            && (Base(r, n) == Base(s, n) <==> NoColdTouch(s, ops, n))
    decreases |ops|
  {
    if ops != [] {
      var t := Step(s, ops[0]);
      StepHot(s, ops[0]);
      StepValid(s, ops[0]);
      StepBase(s, ops[0], n);
      RunBase(t, ops[1..], n);
      if ColdTouch(s, ops[0]) {
        if ops[0].TouchAccount? {
          assert Base(s, n).stamps[ops[0].idx] < Base(t, n).stamps[ops[0].idx];
        } else {
          assert Base(s, n).slotStamps[ops[0].slot] < Base(t, n).slotStamps[ops[0].slot];
        }
      }
    }
  }

  /** Logs below the first `n` entries' count survive. */
  lemma {:induction false} RunLogs(s: Db, ops: seq<Op>, n: nat)
    requires Valid(s) && n < |s.journal| && s.journal[n].Marker? && RunOk(s, ops, n + 1)
    ensures var r := Run(s, ops, n + 1);
            && n < |r.journal| && r.journal[n] == s.journal[n]
            && s.journal[n].logCount <= |r.logs| && s.journal[n].logCount <= |s.logs|
            && r.logs[..s.journal[n].logCount] == s.logs[..s.journal[n].logCount]
    decreases |ops|
  {
    if ops != [] {
      var t := Step(s, ops[0]);
      StepValid(s, ops[0]);
      KeepsMarker(s, ops[0], n);
      RunLogs(t, ops[1..], n);
    }
  }

  lemma KeepsMarker(s: Db, op: Op, n: nat)
    requires Valid(s) && Enabled(s, op) && n < |s.journal| && s.journal[n].Marker?
    requires op.Rollback? ==> op.cp > n
    ensures var t := Step(s, op);
            && n < |t.journal| && t.journal[n] == s.journal[n]
            && s.journal[n].logCount <= |t.logs| && s.journal[n].logCount <= |s.logs|
            && t.logs[..s.journal[n].logCount] == s.logs[..s.journal[n].logCount]
  {
    if op.EmitLog? {
      assert (s.logs + [op.log])[..|s.logs|] == s.logs;
    }
  }

  /** Take a checkpoint, run anything above it, roll back to it: the journal and the
      logs are as before, so is every nonce, balance, code hash, slot value, warm key,
      transient entry and pending destruction, and so are the warm stamps exactly when
      nothing touched a cold row outside the journal. */
  lemma RollbackRestores(s: Db, ops: seq<Op>)
    requires Valid(s) && Hot(s)
    requires RunOk(After(s, Checkpoint), ops, |s.journal| + 1)
    ensures var cp := |s.journal|;
            var t := Run(After(s, Checkpoint), ops, cp + 1);
            && Enabled(t, Rollback(cp))
            && var r := Step(t, Rollback(cp));
               && r.journal == s.journal && r.logs == s.logs && r.counter == s.counter
               && Warmer(s.view, r.view)
               && (r.view == s.view <==> NoColdTouch(After(s, Checkpoint), ops, cp + 1))
  {
    var cp, m := |s.journal|, Step(s, Checkpoint);
    StepValid(s, Checkpoint);
    StepHot(s, Checkpoint);
    RunBase(m, ops, cp + 1);
    RunLogs(m, ops, cp);
    var t := Run(m, ops, cp + 1);
    assert Base(m, cp + 1) == s.view;
    UndoInStages(t.view, t.journal, cp + 1, cp);
    var b := Base(t, cp + 1);
    assert t.journal[..cp + 1] == m.journal;
    assert UndoTo(b, m.journal, cp) == b by {
      assert m.journal[|m.journal| - 1] == Marker(|s.logs|);
      assert m.journal[..cp] == s.journal;
    }
    assert t.journal[..cp] == t.journal[..cp + 1][..cp] == m.journal[..cp] == s.journal;
    assert m.logs[..|s.logs|] == s.logs;
  }

  /** Touching an account through a reader when no access call made it warm leaves it
      warm after the frame is rolled back. */
  lemma ColdTouchSurvives(s: Db, i: nat)
    requires Valid(s) && Hot(s) && i < |s.view.stamps| && s.view.stamps[i] < s.counter
    ensures var ops := [TouchAccount(i)];
            && RunOk(After(s, Checkpoint), ops, |s.journal| + 1)
            && var t := Run(After(s, Checkpoint), ops, |s.journal| + 1);
               Enabled(t, Rollback(|s.journal|)) && Step(t, Rollback(|s.journal|)).view != s.view
  {
    var m := After(s, Checkpoint);
    assert ColdTouch(m, TouchAccount(i));
    assert [TouchAccount(i)][1..] == [];
    assert RunOk(After(m, TouchAccount(i)), [], |s.journal| + 1);
    RollbackRestores(s, [TouchAccount(i)]);
  }

  /** ... and there is such a state: one account, never touched. */
  lemma ColdRowExists()
    ensures var s := Db(View([0], [0], [0], [0], [], [], map[], map[], map[], {}), [], [], [], 1);
            Valid(s) && Hot(s) && s.view.stamps[0] < s.counter
  {
  }
}
