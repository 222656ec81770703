/** What the store statuses are for: net gas metering (EIP-2200, EIP-2929, EIP-3529). */
module StorageGas {
  import opened Journal
  import opened RollbackProofs
  import opened Warmth
  import opened StateDatabase

  /** The prices of a warm store: of any, of one that fills an empty slot, of one that
      changes a filled slot, and the refund for emptying one. */
  datatype Schedule = Schedule(warm: nat, set_: nat, reset: nat, clear: nat)

  /** The schedules with net metering; Amsterdam prices the write of a filled and of an
      empty slot alike. */
  datatype Revision = Istanbul | Berlin | London | Amsterdam

  const STORAGE_WRITE := 10000

  function ScheduleOf(rev: Revision): Schedule {
    match rev
    case Istanbul => Schedule(800, 20000, 5000, 15000)
    case Berlin => Schedule(100, 20000, 5000 - 2100, 15000)
    case London => Schedule(100, 20000, 5000 - 2100, 4800)
    case Amsterdam => Schedule(100, 100 + STORAGE_WRITE, 100 + STORAGE_WRITE, (STORAGE_WRITE + 2100) * 4800 / 5000)
  }

  /** A change costs at least what a warm store does. */
  predicate Priced(c: Schedule) { c.warm <= c.reset && c.warm <= c.set_ }

  /** What the engine charges for a status, and what it puts on the refund counter. */
  function Cost(c: Schedule, status: StorageStatus): int {
    match status
    case Added => c.set_
    case Deleted => c.reset
    case Modified => c.reset
    case _ => c.warm
  }

  function Refund(c: Schedule, status: StorageStatus): int {
    match status
    case Deleted => c.clear
    case ModifiedDeleted => c.clear
    case DeletedAdded => 0 - c.clear
    case DeletedRestored => c.reset - c.warm - c.clear
    case AddedDeleted => c.set_ - c.warm
    case ModifiedRestored => c.reset - c.warm
    case _ => 0
  }

  /** What a slot that started the transaction as `start` and ends it as `end` costs net,
      apart from the stores themselves. */
  function Net(c: Schedule, start: nat, end: nat): int {
    if end == start then 0
    else if start == 0 then c.set_ - c.warm
    else if end == 0 then c.reset - c.warm - c.clear
    else c.reset - c.warm
  }

  /** One store pays the price of a warm one and the difference it makes. */
  lemma StorePays(c: Schedule, start: nat, now: nat, new_: nat)
    ensures var status := StatusOf(start, now, new_);
            Cost(c, status) - Refund(c, status) == c.warm + Net(c, start, new_) - Net(c, start, now)
  {
  }

  /** Cost less refund of all stores to slot `i` in a run, by the statuses they get. */
  ghost function Metered(s: Db, ops: seq<Op>, n: nat, i: nat, c: Schedule): int
    requires Valid(s) && RunOk(s, ops, n) && i < |s.view.slotStamps|
    decreases |ops|
  {
    if ops == [] then 0
    else
      StepValid(s, ops[0]);
      Metered(After(s, ops[0]), ops[1..], n, i, c) + StepMetered(s, ops[0], i, c)
  }

  function StepMetered(s: Db, op: Op, i: nat, c: Schedule): int {
    if StoresTo(op, i) && i < |s.view.values| && i < |s.txOriginal| then
      var status := StatusOf(s.txOriginal[i], s.view.values[i], op.value);
      Cost(c, status) - Refund(c, status)
    else 0
  }

  predicate StoresTo(op: Op, i: nat) {
    op.WriteSlot? && op.slot == i
  }

  function Stores(ops: seq<Op>, i: nat): nat {
    if ops == [] then 0 else Stores(ops[1..], i) + if StoresTo(ops[0], i) then 1 else 0
  }

  predicate NoRollback(ops: seq<Op>) {
    forall k :: 0 <= k < |ops| ==> !ops[k].Rollback?
  }

  /** One step of the run, whatever slot it is about. */
  lemma StepPays(s: Db, op: Op, i: nat, c: Schedule, start: seq<nat>)
    requires Valid(s) && Enabled(s, op) && Originals(s, start) && StoresWarm(s, op) && !op.Rollback?
    requires i < |s.view.slotStamps|
    ensures i < |start| && i < |s.view.values| && i < |Step(s, op).view.values|
    ensures StepMetered(s, op, i, c) == (if StoresTo(op, i) then c.warm else 0)
              + Net(c, start[i], Step(s, op).view.values[i]) - Net(c, start[i], s.view.values[i])
  {
    StepReads(s, op);
    assert Base(s, |s.journal|) == s.view;
    assert Remembers(Base(s, |s.journal|), s.txOriginal, start, s.counter);
    if StoresTo(op, i) { StorePays(c, start[i], s.view.values[i], op.value); }
  }

  lemma {:induction false} RunPays(s: Db, ops: seq<Op>, n: nat, i: nat, c: Schedule, start: seq<nat>)
    requires Valid(s) && Hot(s) && RunOk(s, ops, n) && AllStoresWarm(s, ops, n) && NoRollback(ops)
    requires Originals(s, start) && i < |s.view.slotStamps|
    ensures var r := Run(s, ops, n);
            && i < |start| && i < |s.view.values| && i < |r.view.values|
            && Metered(s, ops, n, i, c) ==
               Stores(ops, i) * c.warm + Net(c, start[i], r.view.values[i]) - Net(c, start[i], s.view.values[i])
    decreases |ops|
  {
    if ops == [] {
      assert Base(s, |s.journal|) == s.view;
      assert Remembers(Base(s, |s.journal|), s.txOriginal, start, s.counter);
    } else {
      var op, t := ops[0], After(s, ops[0]);
      assert !ops[0].Rollback?;
      StepPays(s, op, i, c, start);
      assert Hot(t) && Originals(t, start) && i < |t.view.slotStamps| by {
        StepHot(s, op);
        StepOriginals(s, op, start);
        StepValid(s, op);
      }
      RunPays(t, ops[1..], n, i, c, start);
      MeteredStep(s, ops, n, i, c);
      var r := Run(s, ops, n);
      OneMoreStore(Stores(ops[1..], i), if StoresTo(op, i) then 1 else 0, c.warm, StepMetered(s, op, i, c),
                   Metered(t, ops[1..], n, i, c), Net(c, start[i], s.view.values[i]), Net(c, start[i], t.view.values[i]),
                   Net(c, start[i], r.view.values[i]));
    }
  }

  lemma MeteredStep(s: Db, ops: seq<Op>, n: nat, i: nat, c: Schedule)
    requires Valid(s) && RunOk(s, ops, n) && i < |s.view.slotStamps| && ops != []
    requires i < |After(s, ops[0]).view.slotStamps|
    ensures Metered(s, ops, n, i, c) == Metered(After(s, ops[0]), ops[1..], n, i, c) + StepMetered(s, ops[0], i, c)
    ensures Run(s, ops, n) == Run(After(s, ops[0]), ops[1..], n)
    ensures Stores(ops, i) == Stores(ops[1..], i) + if StoresTo(ops[0], i) then 1 else 0
  {
  }

  lemma OneMoreStore(a: nat, b: nat, w: nat, step: int, rest: int, before: int, between: int, end: int)
    requires step == b * w + between - before && rest == a * w + end - between
    ensures rest + step == (a + b) * w + end - before
  {
    assert (a + b) * w == a * w + b * w;
  }

  /** Over a whole transaction of accesses, loads, stores, frames and anything else but
      reverts, all that is charged less all that is refunded for one slot depends only on
      its value when the transaction began, its value at the end and the number of
      stores. */
  lemma NetMetering(s: Db, ops: seq<Op>, i: nat, c: Schedule)
    requires ViewOk(s.view, s.counter) && |s.txOriginal| == |s.view.values|
    requires Valid(TxStart(s)) && RunOk(TxStart(s), ops, 0) && AllStoresWarm(TxStart(s), ops, 0) && NoRollback(ops)
    requires i < |s.view.slotStamps|
    ensures var r := Run(TxStart(s), ops, 0);
            && i < |r.view.values|
            && Metered(TxStart(s), ops, 0, i, c) == Stores(ops, i) * c.warm + Net(c, s.view.values[i], r.view.values[i])
  {
    TxStartValid(s);
    RunPays(TxStart(s), ops, 0, i, c, s.view.values);
  }

  /** The status a store gets after any run, reverts included, is the one for the value
      the slot had when the transaction began. */
  lemma StatusFromStart(s: Db, ops: seq<Op>, i: nat, x: nat)
    requires ViewOk(s.view, s.counter) && |s.txOriginal| == |s.view.values|
    requires Valid(TxStart(s)) && RunOk(TxStart(s), ops, 0) && AllStoresWarm(TxStart(s), ops, 0)
    requires i < |s.view.slotStamps|
    ensures var r := Run(TxStart(s), ops, 0);
            && i < |r.view.slotStamps| && i < |r.txOriginal| && i < |r.view.values|
            && (r.view.slotStamps[i] == r.counter ==>
                  StatusIs(StatusOf(r.txOriginal[i], r.view.values[i], x), s.view.values[i], r.view.values[i], x))
  {
    OriginalIsStartValue(s, ops, i);
    var r := Run(TxStart(s), ops, 0);
    StatusLaw(s.view.values[i], r.view.values[i], x);
  }

  // ----- the refund counter ---------------------------------------------------------------------------

  function StepRefund(s: Db, op: Op, i: nat, c: Schedule): int {
    if StoresTo(op, i) && i < |s.view.values| && i < |s.txOriginal|
    then Refund(c, StatusOf(s.txOriginal[i], s.view.values[i], op.value))
    else 0
  }

  /** A slot's share of the refund counter at every length the journal has had.  A frame
      that fails hands no refund on, so rolling back brings the old share back. */
  ghost function Counters(s: Db, op: Op, i: nat, c: Schedule, rs: seq<int>): (r: seq<int>)
    requires Valid(s) && Enabled(s, op) && |rs| == |s.journal| + 1
    ensures |r| == |Step(s, op).journal| + 1
  {
    if op.Rollback? then rs[..op.cp + 1]
    else
      StepPushes(s, op);
      var last := rs[|rs| - 1] + StepRefund(s, op, i, c);
      if Step(s, op).journal == s.journal then rs[..|rs| - 1] + [last] else rs + [last]
  }

  ghost function RunCounters(s: Db, ops: seq<Op>, n: nat, i: nat, c: Schedule, rs: seq<int>): (r: seq<int>)
    requires Valid(s) && RunOk(s, ops, n) && |rs| == |s.journal| + 1
    ensures |r| == |Run(s, ops, n).journal| + 1
    decreases |ops|
  {
    if ops == [] then rs else RunCounters(After(s, ops[0]), ops[1..], n, i, c, Counters(s, ops[0], i, c, rs))
  }

  /** A slot that was filled and is empty now has earned the refund for that. */
  predicate Earned(c: Schedule, start: nat, now: nat, r: int) {
    r >= if start != 0 && now == 0 then c.clear else 0
  }

  ghost predicate AllEarned(s: Db, rs: seq<int>, i: nat, c: Schedule, start: nat) {
    && |rs| == |s.journal| + 1
    && forall p :: 0 <= p <= |s.journal| ==> EarnedAt(s, rs, i, c, start, p)
  }

  ghost predicate EarnedAt(s: Db, rs: seq<int>, i: nat, c: Schedule, start: nat, p: nat)
    requires p <= |s.journal| && |rs| == |s.journal| + 1
  {
    i < |Base(s, p).values| && Earned(c, start, Base(s, p).values[i], rs[p])
  }

  /** One store: what had been earned is still enough after it. */
  lemma StoreEarns(c: Schedule, start: nat, now: nat, new_: nat, r: int)
    requires Priced(c) && Earned(c, start, now, r)
    ensures Earned(c, start, new_, r + Refund(c, StatusOf(start, now, new_)))
  {
  }

  lemma StepEarns(s: Db, op: Op, i: nat, c: Schedule, rs: seq<int>, start: seq<nat>)
    requires Valid(s) && Hot(s) && Enabled(s, op) && Originals(s, start) && StoresWarm(s, op) && Priced(c)
    requires i < |start| && AllEarned(s, rs, i, c, start[i])
    ensures AllEarned(Step(s, op), Counters(s, op, i, c, rs), i, c, start[i])
  {
    var r, rs' := Step(s, op), Counters(s, op, i, c, rs);
    forall p | 0 <= p <= |r.journal| ensures EarnedAt(r, rs', i, c, start[i], p) {
      if p < |r.journal| || op.Rollback? {
        EarlierEarned(s, op, i, c, rs, start[i], p);
      } else {
        NowEarned(s, op, i, c, rs, start);
      }
    }
  }

  /** The values as of an earlier length of the journal are what they were. */
  lemma EarlierEarned(s: Db, op: Op, i: nat, c: Schedule, rs: seq<int>, start: nat, p: nat)
    requires Valid(s) && Hot(s) && Enabled(s, op) && AllEarned(s, rs, i, c, start) && p <= |Step(s, op).journal|
    requires p < |Step(s, op).journal| || op.Rollback?
    ensures EarnedAt(Step(s, op), Counters(s, op, i, c, rs), i, c, start, p)
  {
    if !op.Rollback? { StepPushes(s, op); }
    assert p <= |s.journal|;
    StepBase(s, op, p);
    assert EarnedAt(s, rs, i, c, start, p);
    assert Counters(s, op, i, c, rs)[p] == rs[p];
  }

  /** The newest length: the step's own store, if it is one. */
  lemma NowEarned(s: Db, op: Op, i: nat, c: Schedule, rs: seq<int>, start: seq<nat>)
    requires Valid(s) && Enabled(s, op) && Originals(s, start) && StoresWarm(s, op) && Priced(c) && !op.Rollback?
    requires i < |start| && AllEarned(s, rs, i, c, start[i])
    ensures EarnedAt(Step(s, op), Counters(s, op, i, c, rs), i, c, start[i], |Step(s, op).journal|)
  {
    var r, n := Step(s, op), |s.journal|;
    assert Base(s, n) == s.view && Base(r, |r.journal|) == r.view;
    assert EarnedAt(s, rs, i, c, start[i], n);
    assert Remembers(Base(s, n), s.txOriginal, start, s.counter);
    StepReads(s, op);
    if StoresTo(op, i) { StoreEarns(c, start[i], s.view.values[i], op.value, rs[n]); }
  }

  lemma {:induction false} RunEarns(s: Db, ops: seq<Op>, n: nat, i: nat, c: Schedule, rs: seq<int>, start: seq<nat>)
    requires Valid(s) && Hot(s) && RunOk(s, ops, n) && AllStoresWarm(s, ops, n) && Originals(s, start) && Priced(c)
    requires i < |start| && AllEarned(s, rs, i, c, start[i])
    ensures AllEarned(Run(s, ops, n), RunCounters(s, ops, n, i, c, rs), i, c, start[i])
    decreases |ops|
  {
    if ops != [] {
      StepEarns(s, ops[0], i, c, rs, start);
      StepHot(s, ops[0]);
      StepOriginals(s, ops[0], start);
      RunEarns(After(s, ops[0]), ops[1..], n, i, c, Counters(s, ops[0], i, c, rs), start);
    }
  }

  /** In every transaction, reverts included, no slot's share of the refund counter is ever
      negative, under any schedule of the code. */
  lemma RefundsNeverNegative(s: Db, ops: seq<Op>, i: nat, rev: Revision)
    requires ViewOk(s.view, s.counter) && |s.txOriginal| == |s.view.values|
    requires Valid(TxStart(s)) && RunOk(TxStart(s), ops, 0) && AllStoresWarm(TxStart(s), ops, 0)
    requires i < |s.view.slotStamps|
    ensures var rs := RunCounters(TxStart(s), ops, 0, i, ScheduleOf(rev), [0]);
            forall p :: 0 <= p < |rs| ==> rs[p] >= 0
  {
    TxStartValid(s);
    var t, c, start := TxStart(s), ScheduleOf(rev), s.view.values;
    assert Base(t, 0) == t.view && EarnedAt(t, [0], i, c, start[i], 0);
    RunEarns(t, ops, 0, i, c, [0], start);
    var r, rs := Run(t, ops, 0), RunCounters(t, ops, 0, i, c, [0]);
    forall p | 0 <= p < |rs| ensures rs[p] >= 0 { assert EarnedAt(r, rs, i, c, start[i], p); }
  }
}
