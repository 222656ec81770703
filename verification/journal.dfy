/** The journaled state: tables, warm stamps, the undo log, and its kernel steps.

    `View` is what execution can observe.  Every kernel step pushes at most one
    undo entry, and every host callback is a sequence of kernel steps. */
module Journal {

  type Address = int
  type Position = int

  datatype SlotKey = SlotKey(address: Address, position: Position)

  /** The rows of the two tables, the warm keys without a row, the transient map
      and the accounts waiting to be destroyed. */
  datatype View = View(
    nonces: seq<nat>, balances: seq<nat>, codes: seq<int>, stamps: seq<nat>,
    values: seq<nat>, slotStamps: seq<nat>,
    warmAccounts: map<Address, nat>, warmSlots: map<SlotKey, nat>,
    transient: map<SlotKey, nat>, pending: set<nat>)

  datatype Entry =
    | Marker(logCount: nat)
    | NonceEntry(idx: nat, value: nat, stamp: nat)
    | BalanceEntry(idx: nat, value: nat, stamp: nat)
    | CodeEntry(idx: nat, code: int, stamp: nat)
    | StorageEntry(slot: nat, value: nat, stamp: nat)
    | AccountWarmEntry(idx: nat, stamp: nat)
    | StorageWarmEntry(slot: nat, stamp: nat)
    | TransientEntry(key: SlotKey, wasPresent: bool, value: nat)
    | WarmKeyAccountEntry(address: Address, stamp: nat)
    | WarmKeySlotEntry(key: SlotKey, stamp: nat)
    | PendingEntry(idx: nat, wasPresent: bool)

  datatype Log = Log(id: int)

  datatype Db = Db(view: View, txOriginal: seq<nat>, journal: seq<Entry>, logs: seq<Log>, counter: nat)

  // ----- stamps of keys without a row -----------------------------------------------

  function StampOf<K>(m: map<K, nat>, k: K): nat {
    if k in m then m[k] else 0
  }

  /** Stamp 0 means never touched, so it is not stored. */
  function PutStamp<K>(m: map<K, nat>, k: K, stamp: nat): map<K, nat> {
    if stamp == 0 then m - {k} else m[k := stamp]
  }

  function SetAt<T>(s: seq<T>, i: nat, x: T): (r: seq<T>)
    ensures |r| == |s|
  {
    if i < |s| then s[i := x] else s
  }

  // ----- undoing ----------------------------------------------------------------------

  function Undo(v: View, e: Entry): View {
    match e
    case Marker(_) => v
    case NonceEntry(i, x, t) => v.(nonces := SetAt(v.nonces, i, x), stamps := SetAt(v.stamps, i, t))
    case BalanceEntry(i, x, t) => v.(balances := SetAt(v.balances, i, x), stamps := SetAt(v.stamps, i, t))
    case CodeEntry(i, x, t) => v.(codes := SetAt(v.codes, i, x), stamps := SetAt(v.stamps, i, t))
    case StorageEntry(i, x, t) => v.(values := SetAt(v.values, i, x), slotStamps := SetAt(v.slotStamps, i, t))
    case AccountWarmEntry(i, t) => v.(stamps := SetAt(v.stamps, i, t))
    case StorageWarmEntry(i, t) => v.(slotStamps := SetAt(v.slotStamps, i, t))
    case TransientEntry(k, was, x) => v.(transient := if was then v.transient[k := x] else v.transient - {k})
    case WarmKeyAccountEntry(a, t) => v.(warmAccounts := PutStamp(v.warmAccounts, a, t))
    case WarmKeySlotEntry(k, t) => v.(warmSlots := PutStamp(v.warmSlots, k, t))
    case PendingEntry(i, was) => v.(pending := if was then v.pending else v.pending - {i})
  }

  /** Undo the newest entries until `n` are left. */
  function UndoTo(v: View, j: seq<Entry>, n: nat): View
    requires n <= |j|
    decreases |j|
  {
    if |j| == n then v else UndoTo(Undo(v, j[|j| - 1]), j[..|j| - 1], n)
  }

  /** The view as it was when the journal had `n` entries. */
  function Base(s: Db, n: nat): View
    requires n <= |s.journal|
  {
    UndoTo(s.view, s.journal, n)
  }

  lemma {:induction false} UndoInStages(v: View, j: seq<Entry>, k: nat, n: nat)
    requires n <= k <= |j|
    ensures UndoTo(v, j, n) == UndoTo(UndoTo(v, j, k), j[..k], n)
    decreases |j|
  {
    if |j| == k {
      assert j[..k] == j;
    } else {
      UndoInStages(Undo(v, j[|j| - 1]), j[..|j| - 1], k, n);
      assert j[..|j| - 1][..k] == j[..k];
    }
  }

  lemma UndoPushed(v: View, j: seq<Entry>, e: Entry, n: nat)
    requires n <= |j|
    ensures UndoTo(v, j + [e], n) == UndoTo(Undo(v, e), j, n)
  {
    assert (j + [e])[..|j|] == j;
  }

  // ----- kernel steps --------------------------------------------------------------------

  datatype Op =
    | WriteNonce(idx: nat, value: nat)
    | WriteBalance(idx: nat, value: nat)
    | WriteCode(idx: nat, code: int)
    | WriteSlot(slot: nat, value: nat)
    | WarmAccount(idx: nat)
    | WarmSlot(slot: nat)
    | WarmAccountKey(address: Address)
    | WarmSlotKey(key: SlotKey)
    | TouchAccount(idx: nat)
    | TouchSlot(slot: nat)
    | WriteTransient(key: SlotKey, value: nat)
    | Destruct(idx: nat)
    | EmitLog(log: Log)
    | Checkpoint
    | Rollback(cp: nat)

  /** The step does not halt: its row exists, its checkpoint is one. */
  predicate Enabled(s: Db, op: Op) {
    match op
    case WriteNonce(i, _) => i < |s.view.stamps|
    case WriteBalance(i, _) => i < |s.view.stamps|
    case WriteCode(i, _) => i < |s.view.stamps|
    case WarmAccount(i) => i < |s.view.stamps|
    case TouchAccount(i) => i < |s.view.stamps|
    case Destruct(i) => i < |s.view.stamps|
    case WriteSlot(i, _) => i < |s.view.slotStamps|
    case WarmSlot(i) => i < |s.view.slotStamps|
    case TouchSlot(i) => i < |s.view.slotStamps|
    case Rollback(cp) => cp < |s.journal| && s.journal[cp].Marker?
    case _ => true
  }

  /** What `Accounts::mark_touched_at` leaves behind. */
  function Touched(v: View, i: nat, counter: nat): View {
    if i < |v.stamps| && counter > v.stamps[i] then v.(stamps := v.stamps[i := counter]) else v
  }

  /** `Storages::mark_touched_at` also snapshots the value on the first touch. */
  function SlotTouched(s: Db, i: nat): Db {
    if i < |s.view.slotStamps| == |s.view.values| == |s.txOriginal| && s.counter > s.view.slotStamps[i] then
      s.(view := s.view.(slotStamps := s.view.slotStamps[i := s.counter]),
         txOriginal := s.txOriginal[i := s.view.values[i]])
    else s
  }

  function Step(s: Db, op: Op): Db
    requires Valid(s) && Enabled(s, op)
  {
    var v := s.view;
    match op
    case WriteNonce(i, x) =>
      s.(view := v.(nonces := v.nonces[i := x], stamps := v.stamps[i := s.counter]),
         journal := s.journal + [NonceEntry(i, v.nonces[i], v.stamps[i])])
    case WriteBalance(i, x) =>
      s.(view := v.(balances := v.balances[i := x], stamps := v.stamps[i := s.counter]),
         journal := s.journal + [BalanceEntry(i, v.balances[i], v.stamps[i])])
    case WriteCode(i, x) =>
      s.(view := v.(codes := v.codes[i := x], stamps := v.stamps[i := s.counter]),
         journal := s.journal + [CodeEntry(i, v.codes[i], v.stamps[i])])
    case WriteSlot(i, x) =>
      s.(view := v.(values := v.values[i := x], slotStamps := v.slotStamps[i := s.counter]),
         journal := s.journal + [StorageEntry(i, v.values[i], v.slotStamps[i])])
    case WarmAccount(i) =>
      if v.stamps[i] == s.counter then s
      else s.(view := Touched(v, i, s.counter), journal := s.journal + [AccountWarmEntry(i, v.stamps[i])])
    case WarmSlot(i) =>
      if v.slotStamps[i] == s.counter then s
      else SlotTouched(s, i).(journal := s.journal + [StorageWarmEntry(i, v.slotStamps[i])])
    case WarmAccountKey(a) =>
      var last := StampOf(v.warmAccounts, a);
      if last == s.counter then s
      else s.(view := v.(warmAccounts := PutStamp(v.warmAccounts, a, s.counter)),
              journal := s.journal + [WarmKeyAccountEntry(a, last)])
    case WarmSlotKey(k) =>
      var last := StampOf(v.warmSlots, k);
      if last == s.counter then s
      else s.(view := v.(warmSlots := PutStamp(v.warmSlots, k, s.counter)),
              journal := s.journal + [WarmKeySlotEntry(k, last)])
    case TouchAccount(i) => s.(view := Touched(v, i, s.counter))
    case TouchSlot(i) => SlotTouched(s, i)
    case WriteTransient(k, x) =>
      s.(view := v.(transient := v.transient[k := x]),
         journal := s.journal + [TransientEntry(k, k in v.transient, if k in v.transient then v.transient[k] else 0)])
    case Destruct(i) =>
      s.(view := v.(pending := v.pending + {i}), journal := s.journal + [PendingEntry(i, i in v.pending)])
    case EmitLog(l) => s.(logs := s.logs + [l])
    case Checkpoint => s.(journal := s.journal + [Marker(|s.logs|)])
    case Rollback(cp) => RolledBack(s, cp)
  }

  function RolledBack(s: Db, cp: nat): Db
    requires cp < |s.journal| && s.journal[cp].Marker? && s.journal[cp].logCount <= |s.logs|
  {
    s.(view := Base(s, cp), journal := s.journal[..cp], logs := s.logs[..s.journal[cp].logCount])
  }

  // ----- validity ----------------------------------------------------------------------

  ghost predicate StampsOk<K(!new)>(m: map<K, nat>, counter: nat) {
    forall k :: k in m ==> 0 < m[k] <= counter
  }

  ghost predicate ViewOk(v: View, counter: nat) {
    && |v.nonces| == |v.stamps| && |v.balances| == |v.stamps| && |v.codes| == |v.stamps|
    && |v.values| == |v.slotStamps|
    && (forall i :: 0 <= i < |v.stamps| ==> v.stamps[i] <= counter)
    && (forall i :: 0 <= i < |v.slotStamps| ==> v.slotStamps[i] <= counter)
    && StampsOk(v.warmAccounts, counter) && StampsOk(v.warmSlots, counter)
  }

  predicate EntryOk(e: Entry, v: View, counter: nat) {
    match e
    case NonceEntry(i, _, t) => i < |v.stamps| && t <= counter
    case BalanceEntry(i, _, t) => i < |v.stamps| && t <= counter
    case CodeEntry(i, _, t) => i < |v.stamps| && t <= counter
    case AccountWarmEntry(i, t) => i < |v.stamps| && t <= counter
    case PendingEntry(i, _) => i < |v.stamps|
    case StorageEntry(i, _, t) => i < |v.slotStamps| && t <= counter
    case StorageWarmEntry(i, t) => i < |v.slotStamps| && t <= counter
    case WarmKeyAccountEntry(_, t) => t <= counter
    case WarmKeySlotEntry(_, t) => t <= counter
    case _ => true
  }

  ghost predicate JournalOk(j: seq<Entry>, v: View, counter: nat) {
    forall p :: 0 <= p < |j| ==> EntryOk(j[p], v, counter)
  }

  /** Later markers remember at least as many logs. */
  ghost predicate LogsOk(j: seq<Entry>, count: nat) {
    && (forall p :: 0 <= p < |j| && j[p].Marker? ==> j[p].logCount <= count)
    && (forall p, q :: 0 <= p < q < |j| && j[p].Marker? && j[q].Marker? ==> j[p].logCount <= j[q].logCount)
  }

  ghost predicate Valid(s: Db) {
    && s.counter >= 1
    && ViewOk(s.view, s.counter)
    && |s.txOriginal| == |s.view.values|
    && JournalOk(s.journal, s.view, s.counter)
    && LogsOk(s.journal, |s.logs|)
  }

  lemma UndoOk(v: View, e: Entry, counter: nat)
    requires ViewOk(v, counter) && EntryOk(e, v, counter)
    ensures ViewOk(Undo(v, e), counter)
    ensures |Undo(v, e).stamps| == |v.stamps| && |Undo(v, e).slotStamps| == |v.slotStamps|
  {
  }

  lemma {:induction false} UndoToOk(v: View, j: seq<Entry>, n: nat, counter: nat)
    requires n <= |j| && ViewOk(v, counter) && JournalOk(j, v, counter)
    ensures ViewOk(UndoTo(v, j, n), counter)
    ensures |UndoTo(v, j, n).stamps| == |v.stamps| && |UndoTo(v, j, n).slotStamps| == |v.slotStamps|
    decreases |j|
  {
    if |j| > n {
      UndoOk(v, j[|j| - 1], counter);
      UndoToOk(Undo(v, j[|j| - 1]), j[..|j| - 1], n, counter);
    }
  }

  lemma StepView(s: Db, op: Op)
    requires Valid(s) && Enabled(s, op) && !op.Rollback?
    ensures var t := Step(s, op);
            && ViewOk(t.view, s.counter) && |t.txOriginal| == |t.view.values| && t.counter == s.counter
            && |t.view.stamps| == |s.view.stamps| && |t.view.slotStamps| == |s.view.slotStamps|
  {
  }

  /** A step pushes at most one entry, and one that fits. */
  lemma StepPushes(s: Db, op: Op)
    requires Valid(s) && Enabled(s, op) && !op.Rollback?
    ensures var t := Step(s, op);
            && (t.journal == s.journal ||
                (t.journal != [] && t.journal == s.journal + [t.journal[|t.journal| - 1]] &&
                 EntryOk(t.journal[|t.journal| - 1], s.view, s.counter) &&
                 (t.journal[|t.journal| - 1].Marker? ==> t.journal[|t.journal| - 1].logCount == |s.logs|)))
            && |s.logs| <= |t.logs|
  {
  }

  lemma PushedOk(j: seq<Entry>, e: Entry, v: View, v': View, counter: nat, logs: nat)
    requires JournalOk(j, v, counter) && EntryOk(e, v, counter) && LogsOk(j, logs)
    requires e.Marker? ==> e.logCount == logs
    requires |v'.stamps| == |v.stamps| && |v'.slotStamps| == |v.slotStamps|
    ensures JournalOk(j, v', counter) && JournalOk(j + [e], v', counter) && LogsOk(j + [e], logs)
  {
  }

  /** What each write leaves to be read, and that nothing else can be read differently but
      the stamps. */
  lemma StepReads(s: Db, op: Op)
    requires Valid(s) && Enabled(s, op) && !op.Rollback?
    ensures var v, w := s.view, Step(s, op).view;
            && w.nonces == (if op.WriteNonce? then v.nonces[op.idx := op.value] else v.nonces)
            && w.balances == (if op.WriteBalance? then v.balances[op.idx := op.value] else v.balances)
            && w.codes == (if op.WriteCode? then v.codes[op.idx := op.code] else v.codes)
            && w.values == (if op.WriteSlot? then v.values[op.slot := op.value] else v.values)
            && w.transient == (if op.WriteTransient? then v.transient[op.key := op.value] else v.transient)
            && w.pending == (if op.Destruct? then v.pending + {op.idx} else v.pending)
    ensures Step(s, op).logs == if op.EmitLog? then s.logs + [op.log] else s.logs
  {
  }

  lemma StepValid(s: Db, op: Op)
    requires Valid(s) && Enabled(s, op)
    ensures Valid(Step(s, op))
    ensures Step(s, op).counter == s.counter
    ensures |Step(s, op).view.stamps| == |s.view.stamps| && |Step(s, op).view.slotStamps| == |s.view.slotStamps|
  {
    var t := Step(s, op);
    if op.Rollback? {
      UndoToOk(s.view, s.journal, op.cp, s.counter);
    } else {
      StepView(s, op);
      StepPushes(s, op);
      var e := if t.journal == s.journal then Marker(|s.logs|) else t.journal[|t.journal| - 1];
      PushedOk(s.journal, e, s.view, t.view, s.counter, |s.logs|);
    }
  }
}
