/** The database object: tables with dirty flags, updated in place. */
module StateDatabase {
  import opened Basics
  import opened Journal
  import opened RollbackProofs
  import opened Warmth

  const EMPTY_CODE := 0

  /** The block-start fields of an account row. */
  datatype AccountOriginal = AccountOriginal(nonce: nat, balance: nat, code: int)

  /** The overlay of an account row: each field counts only when dirty. */
  datatype AccountMods = AccountMods(
    nonce: nat, nonceDirty: bool, balance: nat, balanceDirty: bool, code: int, codeDirty: bool, last: nat)

  datatype SlotMods = SlotMods(value: nat, dirty: bool, last: nat, txOriginal: nat)

  function NonceOf(o: AccountOriginal, m: AccountMods): nat { if m.nonceDirty then m.nonce else o.nonce }
  function BalanceOf(o: AccountOriginal, m: AccountMods): nat { if m.balanceDirty then m.balance else o.balance }
  function CodeOf(o: AccountOriginal, m: AccountMods): int { if m.codeDirty then m.code else o.code }
  function ValueOf(o: nat, m: SlotMods): nat { if m.dirty then m.value else o }

  function Nonces(o: seq<AccountOriginal>, m: seq<AccountMods>): seq<nat>
    requires |o| == |m|
  {
    seq(|m|, i requires 0 <= i < |m| => NonceOf(o[i], m[i]))
  }

  function Balances(o: seq<AccountOriginal>, m: seq<AccountMods>): seq<nat>
    requires |o| == |m|
  {
    seq(|m|, i requires 0 <= i < |m| => BalanceOf(o[i], m[i]))
  }

  function Codes(o: seq<AccountOriginal>, m: seq<AccountMods>): seq<int>
    requires |o| == |m|
  {
    seq(|m|, i requires 0 <= i < |m| => CodeOf(o[i], m[i]))
  }

  function Stamps(m: seq<AccountMods>): seq<nat> {
    seq(|m|, i requires 0 <= i < |m| => m[i].last)
  }

  function Values(o: seq<nat>, m: seq<SlotMods>): seq<nat>
    requires |o| == |m|
  {
    seq(|m|, i requires 0 <= i < |m| => ValueOf(o[i], m[i]))
  }

  function SlotStamps(m: seq<SlotMods>): seq<nat> {
    seq(|m|, i requires 0 <= i < |m| => m[i].last)
  }

  function TxOriginals(m: seq<SlotMods>): seq<nat> {
    seq(|m|, i requires 0 <= i < |m| => m[i].txOriginal)
  }

  // ----- SSTORE status ---------------------------------------------------------------------

  datatype StorageStatus =
    | Assigned | Added | Deleted | Modified | DeletedAdded | ModifiedDeleted
    | DeletedRestored | AddedDeleted | ModifiedRestored

  function StatusOf(original: nat, current: nat, new_: nat): StorageStatus {
    if new_ == current then Assigned
    else if original == current then
      if original == 0 then Added else if new_ == 0 then Deleted else Modified
    else if original != 0 && current == 0 then
      if new_ == original then DeletedRestored else DeletedAdded
    else if original != 0 && new_ == 0 then ModifiedDeleted
    else if original == 0 && new_ == 0 then AddedDeleted
    else if original == new_ then ModifiedRestored
    else Assigned
  }

  /** When each status is due (EIP-2200, with the names EVMC gives the cases): `start` is
      the value at the start of the transaction, `now` the one before the store. */
  predicate StatusIs(status: StorageStatus, start: nat, now: nat, new_: nat) {
    && (status == Added <==> start == now == 0 && new_ != 0)
    && (status == Deleted <==> start == now != 0 && new_ == 0)
    && (status == Modified <==> start == now != 0 && new_ != 0 && new_ != start)
    && (status == DeletedAdded <==> start != 0 && now == 0 && new_ != 0 && new_ != start)
    && (status == DeletedRestored <==> start != 0 && now == 0 && new_ == start)
    && (status == ModifiedDeleted <==> start != 0 && now != 0 && now != start && new_ == 0)
    && (status == ModifiedRestored <==> start != 0 && now != 0 && now != start && new_ == start)
    && (status == AddedDeleted <==> start == 0 && now != 0 && new_ == 0)
    && (status == Assigned <==> new_ == now || (now != start && now != 0 && new_ != start && new_ != 0))
  }

  lemma StatusLaw(start: nat, now: nat, new_: nat)
    ensures StatusIs(StatusOf(start, now, new_), start, now, new_)
  {
  }

  datatype Lookup = Nothing | Found(idx: nat)

  // ----- 256-bit words ------------------------------------------------------------------------

  function Add256(a: nat, b: nat): nat { (a + b) % WORD }
  function Sub256(a: nat, b: nat): nat { (a - b) % WORD }

  /** What `checkpoint()` hands out. */
  datatype Handle = Handle(cp: nat, logCount: nat)

  /** The rules of the active fork that decide what a self-destruct does. */
  datatype Rules = Rules(cancun: bool, amsterdam: bool)

  // ----- host callbacks as kernel steps ---------------------------------------------------------

  ghost function Transferred(s: Db, from: nat, to: nat, x: nat, event: seq<Log>): (r: Db)
    requires Valid(s) && from < |s.view.stamps| && to < |s.view.stamps| && |event| <= 1
    ensures Valid(r) && |r.view.stamps| == |s.view.stamps|
  {
    if from == to then s
    else
      var b := s.view.balances;
      Logged(After(After(s, WriteBalance(from, Sub256(b[from], x))), WriteBalance(to, Add256(b[to], x))), event)
  }

  ghost function Logged(s: Db, event: seq<Log>): (r: Db)
    requires Valid(s) && |event| <= 1
    ensures Valid(r) && r.view == s.view && r.counter == s.counter && r.journal == s.journal
  {
    if event == [] then s else After(s, EmitLog(event[0]))
  }

  /** Pre-Amsterdam, a destroyed account that names itself burns its balance. */
  ghost function SelfDestructed(s: Db, src: nat, dst: nat, destroy: bool, burn: bool, event: seq<Log>): (r: Db)
    requires Valid(s) && src < |s.view.stamps| && dst < |s.view.stamps| && |event| <= 1
    ensures Valid(r) && |r.view.stamps| == |s.view.stamps|
  {
    if src == dst then
      if !destroy then s
      else After(if burn then After(s, WriteBalance(src, 0)) else s, Destruct(src))
    else
      var b := s.view.balances;
      var t := Logged(After(After(s, WriteBalance(src, 0)), WriteBalance(dst, Add256(b[dst], b[src]))), event);
      if destroy then After(t, Destruct(src)) else t
  }

  lemma LoggedAppends(s: Db, event: seq<Log>)
    requires Valid(s) && |event| <= 1
    ensures Logged(s, event).logs == s.logs + event && Logged(s, event).txOriginal == s.txOriginal
  {
    if event == [] {
      assert s.logs + event == s.logs;
    } else {
      assert [event[0]] == event;
    }
  }

  /** The two balances of a transfer, and nothing else but stamps, journal and log. */
  lemma TransferRows(s: Db, from: nat, to: nat, x: nat, event: seq<Log>)
    requires Valid(s) && from < |s.view.stamps| && to < |s.view.stamps| && |event| <= 1 && from != to
    ensures var v, r := s.view, Transferred(s, from, to, x, event);
            && r.view == v.(balances := r.view.balances, stamps := r.view.stamps)
            && r.view.balances == v.balances[from := Sub256(v.balances[from], x)][to := Add256(v.balances[to], x)]
            && r.logs == s.logs + event
  {
    var b := s.view.balances;
    LoggedAppends(After(After(s, WriteBalance(from, Sub256(b[from], x))), WriteBalance(to, Add256(b[to], x))), event);
  }

  /** A self-destruct registers the account itself, not the beneficiary, and empties it
      into the beneficiary; one that names itself keeps its balance unless it is burned. */
  lemma SelfDestructRows(s: Db, src: nat, dst: nat, destroy: bool, burn: bool, event: seq<Log>)
    requires Valid(s) && src < |s.view.stamps| && dst < |s.view.stamps| && |event| <= 1
    ensures var v, r := s.view, SelfDestructed(s, src, dst, destroy, burn, event);
            && r.view == v.(balances := r.view.balances, stamps := r.view.stamps, pending := r.view.pending)
            && r.view.pending == (if destroy then v.pending + {src} else v.pending)
            && r.view.balances == (if src != dst then v.balances[src := 0][dst := Add256(v.balances[dst], v.balances[src])]
                                   else if destroy && burn then v.balances[src := 0] else v.balances)
            && r.logs == s.logs + if src == dst then [] else event
  {
    if src == dst {
      assert s.logs + [] == s.logs;
    } else {
      var b := s.view.balances;
      LoggedAppends(After(After(s, WriteBalance(src, 0)), WriteBalance(dst, Add256(b[dst], b[src]))), event);
    }
  }

  lemma TxStartOk(s: Db)
    requires ViewOk(s.view, s.counter) && |s.txOriginal| == |s.view.values|
    ensures Valid(TxStart(s))
  {
    TxStartValid(s);
  }

  // ----- deferred destruction --------------------------------------------------------------------

  /** The first `n` slots visited, those of address `a` zeroed. */
  ghost function Wiped(s: Db, keys: seq<SlotKey>, a: Address, n: nat): (r: Db)
    requires Valid(s) && n <= |keys| == |s.view.slotStamps|
    ensures Valid(r) && |r.view.stamps| == |s.view.stamps| && |r.view.slotStamps| == |s.view.slotStamps|
    ensures r.counter == s.counter
  {
    if n == 0 then s
    else
      var t := Wiped(s, keys, a, n - 1);
      if keys[n - 1].address == a && t.view.values[n - 1] != 0 then After(t, WriteSlot(n - 1, 0)) else t
  }

  ghost function ClearedAccount(s: Db, t: Tables, i: nat, rules: Rules): (r: Db)
    requires Valid(s) && RowsOf(t, s) && i < |s.view.stamps|
    ensures Valid(r)
  {
    Wiped(ClearedRow(s, i, rules), t.keys, t.addresses[i], |t.keys|)
  }

  /** The account's own fields, before its slots. */
  ghost function ClearedRow(s: Db, i: nat, rules: Rules): (r: Db)
    requires Valid(s) && i < |s.view.stamps|
    ensures Valid(r) && |r.view.slotStamps| == |s.view.slotStamps|
  {
    var s1 := if rules.amsterdam then s else After(s, WriteBalance(i, 0));
    After(After(s1, WriteNonce(i, 0)), WriteCode(i, EMPTY_CODE))
  }

  lemma {:induction false} WipedFields(s: Db, keys: seq<SlotKey>, a: Address, n: nat)
    requires Valid(s) && n <= |keys| == |s.view.slotStamps|
    ensures WipedFrom(s, Wiped(s, keys, a, n), keys, a, n)
    decreases n
  {
    if n > 0 {
      WipedFields(s, keys, a, n - 1);
      var t, r := Wiped(s, keys, a, n - 1), Wiped(s, keys, a, n);
      assert SlotZeroed(t, r, keys, a, n - 1) by { WipedLast(s, keys, a, n - 1); }
      WipedOneMore(s, t, r, keys, a, n - 1);
    }
  }

  /** `r` is `t` with slot `n` zeroed if it belongs to address `a`. */
  predicate SlotZeroed(t: Db, r: Db, keys: seq<SlotKey>, a: Address, n: nat) {
    var x := t.view.values;
    && n < |keys| == |x| && r.logs == t.logs
    && r.view == t.view.(values := if keys[n].address == a then x[n := 0] else x, slotStamps := r.view.slotStamps)
  }

  lemma WipedLast(s: Db, keys: seq<SlotKey>, a: Address, n: nat)
    requires Valid(s) && n < |keys| == |s.view.slotStamps|
    ensures SlotZeroed(Wiped(s, keys, a, n), Wiped(s, keys, a, n + 1), keys, a, n)
  {
    var t := Wiped(s, keys, a, n);
    if keys[n].address == a && t.view.values[n] != 0 {
      WroteSlot(t, n, 0);
    } else {
      assert t.view.values[n] == 0 ==> t.view.values[n := 0] == t.view.values;
    }
  }

  /** `r` is `s` with the first `n` slots of address `a` zeroed. */
  predicate WipedFrom(s: Db, r: Db, keys: seq<SlotKey>, a: Address, n: nat) {
    && r.logs == s.logs
    && r.view == s.view.(values := r.view.values, slotStamps := r.view.slotStamps)
    && |r.view.values| == |s.view.values| == |keys|
    && forall k :: 0 <= k < |keys| ==>
         r.view.values[k] == if k < n && keys[k].address == a then 0 else s.view.values[k]
  }

  lemma WipedOneMore(s: Db, t: Db, r: Db, keys: seq<SlotKey>, a: Address, n: nat)
    requires n < |keys| && WipedFrom(s, t, keys, a, n) && SlotZeroed(t, r, keys, a, n)
    ensures WipedFrom(s, r, keys, a, n + 1)
  {
  }

  lemma WroteSlot(s: Db, i: nat, x: nat)
    requires Valid(s) && i < |s.view.slotStamps|
    ensures var r := After(s, WriteSlot(i, x));
            && r.logs == s.logs
            && r.view == s.view.(values := s.view.values[i := x], slotStamps := r.view.slotStamps)
  {
  }

  /** `w` is `v` with the accounts in `gone` destroyed and nothing else changed. */
  ghost predicate Destroyed(v: View, w: View, t: Tables, gone: set<nat>, rules: Rules) {
    && |v.nonces| == |w.nonces| == |v.codes| == |w.codes| == |v.balances| == |w.balances| == |t.addresses|
    && |v.values| == |w.values| == |t.keys|
    && (forall i :: 0 <= i < |w.nonces| ==> w.nonces[i] == if i in gone then 0 else v.nonces[i])
    && (forall i :: 0 <= i < |w.codes| ==> w.codes[i] == if i in gone then EMPTY_CODE else v.codes[i])
    && (forall i :: 0 <= i < |w.balances| ==>
          w.balances[i] == if i in gone && !rules.amsterdam then 0 else v.balances[i])
    && (forall k :: 0 <= k < |w.values| ==> w.values[k] == if OwnedByAny(t, gone, k) then 0 else v.values[k])
    && w.transient == v.transient && w.warmAccounts == v.warmAccounts && w.warmSlots == v.warmSlots
  }

  /** Slot `k` belongs to one of these accounts. */
  ghost predicate OwnedByAny(t: Tables, gone: set<nat>, k: nat)
    requires k < |t.keys|
  {
    exists i :: i in gone && i < |t.addresses| && t.addresses[i] == t.keys[k].address
  }

  lemma ClearedFields(s: Db, t: Tables, i: nat, rules: Rules)
    requires Valid(s) && RowsOf(t, s) && i < |s.view.stamps|
    ensures Destroyed(s.view, ClearedAccount(s, t, i, rules).view, t, {i}, rules)
    ensures ClearedAccount(s, t, i, rules).view.pending == s.view.pending
    ensures ClearedAccount(s, t, i, rules).logs == s.logs && ClearedAccount(s, t, i, rules).counter == s.counter
  {
    var s2 := ClearedRow(s, i, rules);
    ClearedRowFields(s, i, rules);
    WipedFields(s2, t.keys, t.addresses[i], |t.keys|);
    OwnedByOne(t, i);
  }

  lemma ClearedRowFields(s: Db, i: nat, rules: Rules)
    requires Valid(s) && i < |s.view.stamps|
    ensures var r, v := ClearedRow(s, i, rules), s.view;
            && r.logs == s.logs && r.counter == s.counter
            && r.view == v.(nonces := v.nonces[i := 0], codes := v.codes[i := EMPTY_CODE], stamps := r.view.stamps,
                            balances := if rules.amsterdam then v.balances else v.balances[i := 0])
  {
  }

  lemma OwnedByOne(t: Tables, i: nat)
    requires i < |t.addresses|
    ensures forall k :: 0 <= k < |t.keys| ==> (OwnedByAny(t, {i}, k) <==> t.keys[k].address == t.addresses[i])
  {
    assert i in {i};
  }

  lemma DestroyOneMore(v: View, w: View, x: View, t: Tables, gone: set<nat>, i: nat, rules: Rules)
    requires Destroyed(v, w, t, gone, rules) && Destroyed(w, x, t, {i}, rules) && i < |t.addresses|
    ensures Destroyed(v, x, t, gone + {i}, rules)
  {
    forall k | 0 <= k < |t.keys|
      ensures OwnedByAny(t, gone + {i}, k) <==> OwnedByAny(t, gone, k) || OwnedByAny(t, {i}, k)
    {
      if OwnedByAny(t, gone + {i}, k) {
        var j :| j in gone + {i} && j < |t.addresses| && t.addresses[j] == t.keys[k].address;
        assert j in gone || j in {i};
      }
      if j :| j in gone && j < |t.addresses| && t.addresses[j] == t.keys[k].address { assert j in gone + {i}; }
      if j :| j in {i} && j < |t.addresses| && t.addresses[j] == t.keys[k].address { assert j in gone + {i}; }
    }
  }

  class StateDb {
    const tables: Tables
    const accountIndex: map<Address, nat>
    const slotIndex: map<SlotKey, nat>
    const accountOriginals: seq<AccountOriginal>
    const slotOriginals: seq<nat>
    var accounts: seq<AccountMods>
    var slots: seq<SlotMods>
    // The key and the result of the last storage lookup.
    var memoValid: bool
    var memoKey: SlotKey
    var memoResult: Lookup
    var warmAccounts: map<Address, nat>
    var warmSlots: map<SlotKey, nat>
    var transient: map<SlotKey, nat>
    var pending: set<nat>
    var journal: seq<Entry>
    var logs: seq<Log>
    var counter: nat
    // Accounts created by the current transaction (EIP-6780).
    var created: set<nat>
    // Accounts whose block-start storage a destruction has wiped.
    var storageWiped: set<nat>

    /** The fixed parts fit together and the lookup memo is right. */
    ghost predicate Shape()
      reads this
    {
      && |accounts| == |accountOriginals| == |tables.addresses|
      && |slots| == |slotOriginals| == |tables.keys|
      && Distinct(tables)
      && (forall a :: a in accountIndex <==> a in tables.addresses)
      && (forall a :: a in accountIndex ==> accountIndex[a] < |accounts| && tables.addresses[accountIndex[a]] == a)
      && (forall k :: k in slotIndex <==> k in tables.keys)
      && (forall k :: k in slotIndex ==> slotIndex[k] < |slots| && tables.keys[slotIndex[k]] == k)
      && (memoValid ==> memoResult == Indexed(memoKey))
    }

    function Indexed(k: SlotKey): Lookup {
      if k in slotIndex then Found(slotIndex[k]) else Nothing
    }

    ghost function Observed(): View
      reads this
      requires |accounts| == |accountOriginals| && |slots| == |slotOriginals|
    {
      View(Nonces(accountOriginals, accounts), Balances(accountOriginals, accounts), Codes(accountOriginals, accounts),
           Stamps(accounts), Values(slotOriginals, slots), SlotStamps(slots),
           warmAccounts, warmSlots, transient, pending)
    }

    ghost function State(): Db
      reads this
      requires |accounts| == |accountOriginals| && |slots| == |slotOriginals|
    {
      Db(Observed(), TxOriginals(slots), journal, logs, counter)
    }

    ghost predicate Ok()
      reads this
    {
      Shape() && Valid(State())
    }

    /** Fresh tables: nothing dirty, nothing touched. */
    constructor (t: Tables, rowOf: map<Address, nat>, slotOf: map<SlotKey, nat>,
                 originals: seq<AccountOriginal>, values: seq<nat>)
      requires Distinct(t) && |originals| == |t.addresses| && |values| == |t.keys|
      requires forall a :: a in rowOf <==> a in t.addresses
      requires forall a :: a in rowOf ==> rowOf[a] < |t.addresses| && t.addresses[rowOf[a]] == a
      requires forall k :: k in slotOf <==> k in t.keys
      requires forall k :: k in slotOf ==> slotOf[k] < |t.keys| && t.keys[slotOf[k]] == k
      ensures Shape() && ViewOk(Observed(), counter) && counter == 0
      ensures |Observed().balances| == |originals|
      ensures forall i :: 0 <= i < |originals| ==> Observed().balances[i] == originals[i].balance
      ensures Observed().values == values
    {
      tables := t;
      accountIndex, slotIndex := rowOf, slotOf;
      accountOriginals, slotOriginals := originals, values;
      accounts := seq(|t.addresses|, _ => AccountMods(0, false, 0, false, 0, false, 0));
      slots := seq(|t.keys|, _ => SlotMods(0, false, 0, 0));
      memoValid, memoKey, memoResult := false, SlotKey(0, 0), Nothing;
      warmAccounts, warmSlots, transient, pending := map[], map[], map[], {};
      journal, logs, counter, created, storageWiped := [], [], 0, {}, {};
    }

    // ----- table setters ------------------------------------------------------------------

    method SetNonceAt(i: nat, x: nat, t: nat)
      requires Shape() && i < |accounts|
      modifies this`accounts
      ensures Shape()
      ensures State() == old(State()).(view := old(Observed()).(nonces := old(Observed()).nonces[i := x],
                                                                stamps := old(Observed()).stamps[i := t]))
    {
      accounts := accounts[i := accounts[i].(nonce := x, nonceDirty := true, last := t)];
    }

    method SetBalanceAt(i: nat, x: nat, t: nat)
      requires Shape() && i < |accounts|
      modifies this`accounts
      ensures Shape()
      ensures State() == old(State()).(view := old(Observed()).(balances := old(Observed()).balances[i := x],
                                                                stamps := old(Observed()).stamps[i := t]))
    {
      accounts := accounts[i := accounts[i].(balance := x, balanceDirty := true, last := t)];
    }

    method SetCodeAt(i: nat, x: int, t: nat)
      requires Shape() && i < |accounts|
      modifies this`accounts
      ensures Shape()
      ensures State() == old(State()).(view := old(Observed()).(codes := old(Observed()).codes[i := x],
                                                                stamps := old(Observed()).stamps[i := t]))
    {
      accounts := accounts[i := accounts[i].(code := x, codeDirty := true, last := t)];
    }

    method SetWarmAt(i: nat, t: nat)
      requires Shape() && i < |accounts|
      modifies this`accounts
      ensures Shape()
      ensures State() == old(State()).(view := old(Observed()).(stamps := old(Observed()).stamps[i := t]))
    {
      accounts := accounts[i := accounts[i].(last := t)];
    }

    method MarkTouchedAt(i: nat)
      requires Shape() && i < |accounts|
      modifies this`accounts
      ensures Shape()
      ensures State() == old(State()).(view := Touched(old(Observed()), i, counter))
    {
      if counter > accounts[i].last {
        accounts := accounts[i := accounts[i].(last := counter)];
      }
    }

    method SetValueAt(i: nat, x: nat, t: nat)
      requires Shape() && i < |slots|
      modifies this`slots
      ensures Shape()
      ensures State() == old(State()).(view := old(Observed()).(values := old(Observed()).values[i := x],
                                                                slotStamps := old(Observed()).slotStamps[i := t]))
    {
      slots := slots[i := slots[i].(value := x, dirty := true, last := t)];
    }

    method SetSlotWarmAt(i: nat, t: nat)
      requires Shape() && i < |slots|
      modifies this`slots
      ensures Shape()
      ensures State() == old(State()).(view := old(Observed()).(slotStamps := old(Observed()).slotStamps[i := t]))
    {
      slots := slots[i := slots[i].(last := t)];
    }

    method MarkSlotTouchedAt(i: nat)
      requires Shape() && i < |slots|
      modifies this`slots
      ensures Shape()
      ensures State() == SlotTouched(old(State()), i)
    {
      if counter > slots[i].last {
        var current := ValueOf(slotOriginals[i], slots[i]);
        slots := slots[i := slots[i].(last := counter, txOriginal := current)];
      }
    }

    method SetAccountKey(a: Address, t: nat)
      requires Shape()
      modifies this`warmAccounts
      ensures Shape()
      ensures State() == old(State()).(view := old(Observed()).(warmAccounts := PutStamp(old(warmAccounts), a, t)))
    {
      if t == 0 { warmAccounts := warmAccounts - {a}; } else { warmAccounts := warmAccounts[a := t]; }
    }

    method SetSlotKey(k: SlotKey, t: nat)
      requires Shape()
      modifies this`warmSlots
      ensures Shape()
      ensures State() == old(State()).(view := old(Observed()).(warmSlots := PutStamp(old(warmSlots), k, t)))
    {
      if t == 0 { warmSlots := warmSlots - {k}; } else { warmSlots := warmSlots[k := t]; }
    }

    method Push(e: Entry)
      requires Shape()
      modifies this`journal
      ensures Shape()
      ensures State() == old(State()).(journal := old(journal) + [e])
    {
      journal := journal + [e];
    }

    /** A storage lookup that first tries the last one. */
    method Find(k: SlotKey) returns (r: Lookup)
      requires Shape()
      modifies this`memoValid, this`memoKey, this`memoResult
      ensures Shape() && State() == old(State())
      ensures r == Indexed(k)
    {
      if memoValid && memoKey == k {
        return memoResult;
      }
      r := if k in slotIndex then Found(slotIndex[k]) else Nothing;
      memoKey, memoResult, memoValid := k, r, true;
    }

    // ----- warm access -------------------------------------------------------------------

    method WarmRow(i: nat) returns (warm: bool)
      requires Ok() && i < |accounts|
      modifies this`accounts, this`journal
      ensures Ok() && State() == Step(old(State()), WarmAccount(i))
      ensures warm <==> old(Observed()).stamps[i] == counter
    {
      StepValid(State(), WarmAccount(i));
      warm := accounts[i].last == counter;
      if !warm {
        Push(AccountWarmEntry(i, accounts[i].last));
      }
      MarkTouchedAt(i);
    }

    /** EIP-2929: warm exactly when the address is in the accessed set. */
    method AccessAccount(a: Address, precompile: bool) returns (warm: bool)
      requires Ok()
      modifies this`accounts, this`journal, this`warmAccounts
      ensures Ok()
      ensures precompile ==> State() == old(State()) && warm
      ensures !precompile ==>
        && State() == Step(old(State()), if a in accountIndex then WarmAccount(accountIndex[a]) else WarmAccountKey(a))
        && (warm <==> old(IsWarmAccount(Observed(), tables, counter, a)))
    {
      if precompile { return true; }
      if a !in accountIndex {
        StepValid(State(), WarmAccountKey(a));
        var last := if a in warmAccounts then warmAccounts[a] else 0;
        if last != counter {
          Push(WarmKeyAccountEntry(a, last));
          SetAccountKey(a, counter);
        }
        return last == counter;
      }
      warm := WarmRow(accountIndex[a]);
    }

    method AccessStorage(k: SlotKey) returns (warm: bool)
      requires Ok()
      modifies this`slots, this`journal, this`warmSlots, this`memoValid, this`memoKey, this`memoResult
      ensures Ok()
      ensures State() == Step(old(State()), if k in slotIndex then WarmSlot(slotIndex[k]) else WarmSlotKey(k))
      ensures warm <==> old(IsWarmSlot(Observed(), tables, counter, k))
    {
      var found := Find(k);
      StepValid(State(), if k in slotIndex then WarmSlot(slotIndex[k]) else WarmSlotKey(k));
      if found.Nothing? {
        var last := if k in warmSlots then warmSlots[k] else 0;
        if last != counter {
          Push(WarmKeySlotEntry(k, last));
          SetSlotKey(k, counter);
        }
        return last == counter;
      }
      var i := found.idx;
      warm := slots[i].last == counter;
      if !warm {
        Push(StorageWarmEntry(i, slots[i].last));
      }
      MarkSlotTouchedAt(i);
    }

    // ----- loads and stores -----------------------------------------------------------------

    method GetBalance(a: Address) returns (r: Lookup)
      requires Ok()
      modifies this`accounts
      ensures Ok()
      ensures a !in accountIndex ==> r.Nothing? && State() == old(State())
      ensures a in accountIndex ==>
        && State() == Step(old(State()), TouchAccount(accountIndex[a]))
        && r == Found(old(Observed()).balances[accountIndex[a]])
    {
      if a !in accountIndex { return Nothing; }
      var i := accountIndex[a];
      StepValid(State(), TouchAccount(i));
      MarkTouchedAt(i);
      r := Found(BalanceOf(accountOriginals[i], accounts[i]));
    }

    method GetStorage(k: SlotKey) returns (r: Lookup)
      requires Ok()
      modifies this`slots, this`memoValid, this`memoKey, this`memoResult
      ensures Ok()
      ensures k !in slotIndex ==> r.Nothing? && State() == old(State())
      ensures k in slotIndex ==>
        && State() == Step(old(State()), TouchSlot(slotIndex[k]))
        && r == Found(old(Observed()).values[slotIndex[k]])
    {
      var found := Find(k);
      if found.Nothing? { return Nothing; }
      StepValid(State(), TouchSlot(found.idx));
      MarkSlotTouchedAt(found.idx);
      r := Found(ValueOf(slotOriginals[found.idx], slots[found.idx]));
    }

    /** The status comes from the slot's value at transaction start, whenever an access
        made the slot warm first (OriginalIsStartValue). */
    method SetStorage(k: SlotKey, x: nat) returns (ok: bool, status: StorageStatus)
      requires Ok()
      modifies this`slots, this`journal, this`memoValid, this`memoKey, this`memoResult
      ensures Ok()
      ensures ok <==> k in slotIndex
      ensures !ok ==> State() == old(State())
      ensures ok ==> State() == Step(old(State()), WriteSlot(slotIndex[k], x))
      ensures ok ==> status == StatusOf(old(State()).txOriginal[slotIndex[k]], old(Observed()).values[slotIndex[k]], x)
      ensures ok ==> StatusIs(status, old(State()).txOriginal[slotIndex[k]], old(Observed()).values[slotIndex[k]], x)
      ensures ok ==> Observed().values == old(Observed()).values[slotIndex[k] := x]
    {
      var found := Find(k);
      if found.Nothing? { return false, Assigned; }
      var i := found.idx;
      StepValid(State(), WriteSlot(i, x));
      var original := slots[i].txOriginal;
      var current := ValueOf(slotOriginals[i], slots[i]);
      Push(StorageEntry(i, current, slots[i].last));
      SetValueAt(i, x, counter);
      StatusLaw(original, current, x);
      return true, StatusOf(original, current, x);
    }

    method SetTransient(k: SlotKey, x: nat)
      requires Ok()
      modifies this`transient, this`journal
      ensures Ok() && State() == Step(old(State()), WriteTransient(k, x))
      ensures transient == old(transient)[k := x]
    {
      StepValid(State(), WriteTransient(k, x));
      var present := k in transient;
      var before := if present then transient[k] else 0;
      transient := transient[k := x];
      Push(TransientEntry(k, present, before));
    }

    /** Zero where nothing was stored in this transaction. */
    method GetTransient(k: SlotKey) returns (x: nat)
      requires Ok()
      ensures x == if k in transient then transient[k] else 0
    {
      x := if k in transient then transient[k] else 0;
    }

    method LogEvent(l: Log)
      requires Ok()
      modifies this`logs
      ensures Ok() && State() == Step(old(State()), EmitLog(l)) && logs == old(logs) + [l]
    {
      StepValid(State(), EmitLog(l));
      logs := logs + [l];
    }

    // ----- balances ------------------------------------------------------------------------------

    /** Moves value between two rows; the two debits and credits wrap as 256-bit words do. */
    method TransferValue(from: Address, to: Address, x: nat, event: seq<Log>) returns (ok: bool)
      requires Ok() && |event| <= 1
      modifies this`accounts, this`journal, this`logs
      ensures Ok()
      ensures ok <==> from in accountIndex && to in accountIndex
      ensures !ok ==> State() == old(State())
      ensures ok ==> State() == Transferred(old(State()), accountIndex[from], accountIndex[to], x, event)
    {
      if from !in accountIndex || to !in accountIndex { return false; }
      var f, t := accountIndex[from], accountIndex[to];
      ok := true;
      if f == t { return; }
      ghost var s := State();
      ghost var s1 := After(s, WriteBalance(f, Sub256(s.view.balances[f], x)));
      ghost var s2 := After(s1, WriteBalance(t, Add256(s.view.balances[t], x)));
      Push(BalanceEntry(f, BalanceOf(accountOriginals[f], accounts[f]), accounts[f].last));
      Push(BalanceEntry(t, BalanceOf(accountOriginals[t], accounts[t]), accounts[t].last));
      var fromBalance := BalanceOf(accountOriginals[f], accounts[f]);
      var toBalance := BalanceOf(accountOriginals[t], accounts[t]);
      SetBalanceAt(f, Sub256(fromBalance, x), counter);
      SetBalanceAt(t, Add256(toBalance, x), counter);
      assert State() == s2;
      if event != [] { LogEvent(event[0]); }
    }

    /** EIP-6780: destroys only accounts this transaction created, from Cancun on. */
    method SelfDestruct(a: Address, beneficiary: Address, rules: Rules, event: seq<Log>) returns (ok: bool, first: bool)
      requires Ok() && |event| <= 1
      modifies this`accounts, this`journal, this`logs, this`pending
      ensures Ok()
      ensures ok <==> a in accountIndex && beneficiary in accountIndex
      ensures !ok ==> State() == old(State())
      ensures ok ==>
        var src, dst := accountIndex[a], accountIndex[beneficiary];
        var destroy := !rules.cancun || src in created;
        && State() == SelfDestructed(old(State()), src, dst, destroy, !rules.amsterdam, event)
        && (first <==> destroy && src !in old(pending))
    {
      if a !in accountIndex || beneficiary !in accountIndex { return false, false; }
      ok := true;
      var src, dst := accountIndex[a], accountIndex[beneficiary];
      var destroy := !rules.cancun || src in created;
      if a == beneficiary {
        first := DestroyHere(src, destroy, !rules.amsterdam);
      } else {
        first := SendAndDestroy(src, dst, destroy, event);
      }
    }

    method DestroyHere(src: nat, destroy: bool, burn: bool) returns (first: bool)
      requires Ok() && src < |accounts|
      modifies this`accounts, this`journal, this`pending
      ensures Ok() && State() == SelfDestructed(old(State()), src, src, destroy, burn, [])
      ensures first <==> destroy && src !in old(pending)
    {
      if !destroy { return false; }
      if burn { Burn(src); }
      first := RegisterDestruct(src);
    }

    method SendAndDestroy(src: nat, dst: nat, destroy: bool, event: seq<Log>) returns (first: bool)
      requires Ok() && src < |accounts| && dst < |accounts| && src != dst && |event| <= 1
      modifies this`accounts, this`journal, this`logs, this`pending
      ensures Ok() && forall burn :: State() == SelfDestructed(old(State()), src, dst, destroy, burn, event)
      ensures first <==> destroy && src !in old(pending)
    {
      Sweep(src, dst);
      if event != [] { LogEvent(event[0]); }
      first := false;
      if destroy { first := RegisterDestruct(src); }
    }

    method Burn(i: nat)
      requires Ok() && i < |accounts|
      modifies this`accounts, this`journal
      ensures Ok() && State() == After(old(State()), WriteBalance(i, 0))
    {
      StepValid(State(), WriteBalance(i, 0));
      Push(BalanceEntry(i, BalanceOf(accountOriginals[i], accounts[i]), accounts[i].last));
      SetBalanceAt(i, 0, counter);
    }

    /** Moves the whole balance of one row to another. */
    method Sweep(src: nat, dst: nat)
      requires Ok() && src < |accounts| && dst < |accounts| && src != dst
      modifies this`accounts, this`journal
      ensures Ok()
      ensures State() == After(After(old(State()), WriteBalance(src, 0)),
                               WriteBalance(dst, Add256(old(Observed()).balances[dst], old(Observed()).balances[src])))
    {
      ghost var s := State();
      ghost var s1 := After(s, WriteBalance(src, 0));
      ghost var s2 := After(s1, WriteBalance(dst, Add256(s.view.balances[dst], s.view.balances[src])));
      Push(BalanceEntry(src, BalanceOf(accountOriginals[src], accounts[src]), accounts[src].last));
      Push(BalanceEntry(dst, BalanceOf(accountOriginals[dst], accounts[dst]), accounts[dst].last));
      var srcBalance := BalanceOf(accountOriginals[src], accounts[src]);
      var dstBalance := BalanceOf(accountOriginals[dst], accounts[dst]);
      SetBalanceAt(dst, Add256(dstBalance, srcBalance), counter);
      SetBalanceAt(src, 0, counter);
      assert Observed().balances == s2.view.balances;
      assert Observed().stamps == s2.view.stamps;
    }

    method RegisterDestruct(i: nat) returns (inserted: bool)
      requires Ok() && i < |accounts|
      modifies this`pending, this`journal
      ensures Ok() && State() == Step(old(State()), Destruct(i))
      ensures inserted <==> i !in old(pending)
    {
      StepValid(State(), Destruct(i));
      inserted := i !in pending;
      pending := pending + {i};
      Push(PendingEntry(i, !inserted));
    }

    // ----- contract creation -----------------------------------------------------------------------

    /** A creation first bumps the creator's nonce and warms the new address; it changes
        nothing when the nonce is already the largest 64-bit one. */
    method BeginCreate(sender: Address, newAddress: Address) returns (ok: bool, light: bool)
      requires Ok()
      modifies this`accounts, this`journal
      ensures Ok()
      ensures ok <==> && sender in accountIndex
                      && (old(Observed()).nonces[accountIndex[sender]] == 0xFFFF_FFFF_FFFF_FFFF ||
                          newAddress in accountIndex)
      ensures ok && light ==> State() == old(State())
      ensures ok ==> (light <==> old(Observed()).nonces[accountIndex[sender]] == 0xFFFF_FFFF_FFFF_FFFF)
      ensures ok && !light ==>
        && newAddress in accountIndex
        && var i := accountIndex[sender];
           Observed().nonces == old(Observed()).nonces[i := old(Observed()).nonces[i] + 1] &&
           Observed().stamps[accountIndex[newAddress]] == counter &&
           State() == After(After(old(State()), WriteNonce(i, old(Observed()).nonces[i] + 1)),
                            WarmAccount(accountIndex[newAddress]))
    {
      if sender !in accountIndex { return false, false; }
      var i := accountIndex[sender];
      var nonce := NonceOf(accountOriginals[i], accounts[i]);
      if nonce == 0xFFFF_FFFF_FFFF_FFFF { return true, true; }
      StepValid(State(), WriteNonce(i, nonce + 1));
      Push(NonceEntry(i, nonce, accounts[i].last));
      SetNonceAt(i, nonce + 1, counter);
      if newAddress !in accountIndex { return false, false; }
      var warm := WarmRow(accountIndex[newAddress]);
      return true, false;
    }

    /** The code of a finished creation. */
    method RegisterCode(i: nat, code: int)
      requires Ok() && i < |accounts|
      modifies this`accounts, this`journal
      ensures Ok() && State() == Step(old(State()), WriteCode(i, code))
      ensures Observed().codes == old(Observed()).codes[i := code] && Observed().nonces == old(Observed()).nonces
    {
      StepValid(State(), WriteCode(i, code));
      Push(CodeEntry(i, CodeOf(accountOriginals[i], accounts[i]), accounts[i].last));
      SetCodeAt(i, code, counter);
    }

    // ----- end of the transaction ------------------------------------------------------------------

    /** Zeroes the slots of one address. */
    method WipeSlots(a: Address)
      requires Ok()
      modifies this`slots, this`journal
      ensures Ok() && State() == Wiped(old(State()), tables.keys, a, |slots|)
    {
      ghost var s := State();
      for i := 0 to |tables.keys|
        invariant Wiping(s, a, i)
      {
        WipeSlot(i, a, s);
      }
    }

    /** The first `i` slots have been visited. */
    ghost predicate Wiping(s: Db, a: Address, i: nat)
      reads this
    {
      && Ok() && i <= |tables.keys| == |slots| && Valid(s) && |s.view.slotStamps| == |tables.keys|
      && State() == Wiped(s, tables.keys, a, i)
    }

    method WipeSlot(i: nat, a: Address, ghost s: Db)
      requires Wiping(s, a, i) && i < |tables.keys|
      modifies this`slots, this`journal
      ensures Wiping(s, a, i + 1)
    {
      var current := ValueOf(slotOriginals[i], slots[i]);
      if tables.keys[i].address == a && current != 0 { ZeroSlot(i); }
    }

    method ZeroSlot(i: nat)
      requires Ok() && i < |slots|
      modifies this`slots, this`journal
      ensures Ok() && State() == After(old(State()), WriteSlot(i, 0))
    {
      StepValid(State(), WriteSlot(i, 0));
      Push(StorageEntry(i, ValueOf(slotOriginals[i], slots[i]), slots[i].last));
      SetValueAt(i, 0, counter);
    }

    method ClearAccount(i: nat, rules: Rules)
      requires Ok() && i < |accounts|
      modifies this`accounts, this`slots, this`journal, this`storageWiped
      ensures Ok() && State() == ClearedAccount(old(State()), tables, i, rules)
      ensures storageWiped == old(storageWiped) + {i}
    {
      storageWiped := storageWiped + {i};
      ClearRow(i, rules);
    }

    method ClearRow(i: nat, rules: Rules)
      requires Ok() && i < |accounts|
      modifies this`accounts, this`slots, this`journal
      ensures Ok() && State() == ClearedAccount(old(State()), tables, i, rules)
    {
      if !rules.amsterdam { Burn(i); }
      StepValid(State(), WriteNonce(i, 0));
      Push(NonceEntry(i, NonceOf(accountOriginals[i], accounts[i]), accounts[i].last));
      SetNonceAt(i, 0, counter);
      RegisterCode(i, EMPTY_CODE);
      WipeSlots(tables.addresses[i]);
    }

    method DestroyRow(i: nat, rules: Rules, ghost v: View, ghost gone: set<nat>)
      requires Ok() && i < |accounts| && Destroyed(v, Observed(), tables, gone, rules)
      modifies this`accounts, this`slots, this`journal, this`storageWiped
      ensures Ok() && Destroyed(v, Observed(), tables, gone + {i}, rules)
      ensures storageWiped == old(storageWiped) + {i}
    {
      ghost var before := State();
      ClearAccount(i, rules);
      ClearedFields(before, tables, i, rules);
      DestroyOneMore(v, before.view, Observed(), tables, gone, i, rules);
    }

    /** Destroys exactly the pending accounts, in whatever order they are taken. */
    method ApplyPendingDestructs(rules: Rules)
      requires Ok() && forall i :: i in pending ==> i < |accounts|
      modifies this`accounts, this`slots, this`journal, this`pending, this`storageWiped
      ensures Ok() && pending == {} && storageWiped == old(storageWiped) + old(pending)
      ensures Destroyed(old(Observed()), Observed(), tables, old(pending), rules)
      ensures logs == old(logs) && counter == old(counter)
    {
      ghost var v := Observed();
      var rest := pending;
      assert pending - rest == {};
      while rest != {}
        invariant Ok() && rest <= pending == v.pending && logs == old(logs) && counter == old(counter)
        invariant forall i :: i in pending ==> i < |accounts|
        invariant Destroyed(v, Observed(), tables, pending - rest, rules)
        invariant storageWiped == old(storageWiped) + (pending - rest)
        decreases rest
      {
        var i :| i in rest;
        assert pending - (rest - {i}) == (pending - rest) + {i};
        DestroyRow(i, rules, v, pending - rest);
        rest := rest - {i};
      }
      assert pending - rest == pending;
      pending := {};
    }

    // ----- frames ------------------------------------------------------------------------------------

    method TakeCheckpoint() returns (h: Handle)
      requires Ok()
      modifies this`journal
      ensures Ok() && State() == Step(old(State()), Checkpoint)
      ensures h == Handle(|old(journal)|, |logs|)
    {
      StepValid(State(), Checkpoint);
      h := Handle(|journal|, |logs|);
      Push(Marker(|logs|));
    }

    method UndoEntry(e: Entry)
      requires Shape() && EntryOk(e, Observed(), counter)
      modifies this`accounts, this`slots, this`transient, this`warmAccounts, this`warmSlots, this`pending
      ensures Shape() && State() == old(State()).(view := Undo(old(Observed()), e))
    {
      match e
      case Marker(_) =>
      case NonceEntry(i, x, t) => SetNonceAt(i, x, t);
      case BalanceEntry(i, x, t) => SetBalanceAt(i, x, t);
      case CodeEntry(i, x, t) => SetCodeAt(i, x, t);
      case StorageEntry(i, x, t) => SetValueAt(i, x, t);
      case AccountWarmEntry(i, t) => SetWarmAt(i, t);
      case StorageWarmEntry(i, t) => SetSlotWarmAt(i, t);
      case TransientEntry(k, was, x) =>
        if was { transient := transient[k := x]; } else { transient := transient - {k}; }
      case WarmKeyAccountEntry(a, t) => SetAccountKey(a, t);
      case WarmKeySlotEntry(k, t) => SetSlotKey(k, t);
      case PendingEntry(i, was) =>
        if !was { pending := pending - {i}; }
    }

    method PopEntry()
      requires Shape() && journal != [] && EntryOk(journal[|journal| - 1], Observed(), counter)
      modifies this`accounts, this`slots, this`transient, this`warmAccounts, this`warmSlots, this`pending, this`journal
      ensures Shape() && journal == old(journal)[..|old(journal)| - 1]
      ensures State() == old(State()).(view := Undo(old(Observed()), old(journal)[|old(journal)| - 1]), journal := journal)
    {
      UndoEntry(journal[|journal| - 1]);
      journal := journal[..|journal| - 1];
    }

    /** Part of the way back to a checkpoint, everything above it still undoes the same. */
    ghost predicate Unwinding(s: Db, cp: nat)
      reads this
      requires Valid(s) && cp <= |s.journal|
    {
      && Shape() && cp <= |journal| <= |s.journal| && journal == s.journal[..|journal|]
      && State() == s.(view := Observed(), journal := journal)
      && |accounts| == |s.view.stamps| && |slots| == |s.view.slotStamps|
      && UndoTo(Observed(), journal, cp) == Base(s, cp)
    }

    /** Pops entries down to and including the checkpoint's marker, undoing each. */
    method RollbackTo(h: Handle) returns (ok: bool)
      requires Ok()
      requires h.cp < |journal| && journal[h.cp].Marker? ==> journal[h.cp].logCount == h.logCount
      modifies this`accounts, this`slots, this`transient, this`warmAccounts, this`warmSlots, this`pending,
               this`journal, this`logs
      ensures Ok()
      ensures ok <==> h.cp < |old(journal)| && old(journal)[h.cp].Marker?
      ensures !ok ==> State() == old(State())
      ensures ok ==> State() == Step(old(State()), Rollback(h.cp))
    {
      if h.cp >= |journal| || !journal[h.cp].Marker? { return false; }
      ghost var s := State();
      StepValid(s, Rollback(h.cp));
      while |journal| > h.cp
        invariant Unwinding(s, h.cp)
        decreases |journal|
      {
        assert EntryOk(s.journal[|journal| - 1], s.view, s.counter);
        PopEntry();
      }
      logs := logs[..h.logCount];
      ok := true;
    }

    // ----- transaction start ---------------------------------------------------------------------------

    method BeginTransaction()
      requires Shape() && ViewOk(Observed(), counter)
      modifies this`journal, this`transient, this`pending, this`logs, this`counter, this`created
      ensures Ok() && State() == TxStart(old(State())) && created == {}
      ensures counter == old(counter) + 1 && journal == [] && transient == map[] && pending == {} && logs == []
      ensures Observed() == old(Observed()).(transient := map[], pending := {})
    {
      ghost var s := State();
      TxStartOk(s);
      counter := counter + 1;
      journal, transient, created, pending, logs := [], map[], {}, {}, [];
      assert State() == TxStart(s);
    }

    /** Warms an address before execution starts; nothing can revert it. */
    method Prewarm(a: Address, precompile: bool)
      requires Ok() && journal == []
      modifies this`accounts, this`warmAccounts
      ensures Ok() && journal == []
      ensures precompile ==> State() == old(State())
      ensures !precompile ==> forall sets :: old(SetsOf(sets, Observed(), tables, counter)) ==>
        SetsOf(sets.(accounts := sets.accounts + {a}), Observed(), tables, counter)
    {
      if precompile { return; }
      ghost var v := Observed();
      if a in accountIndex {
        var i := accountIndex[a];
        StepValid(State(), TouchAccount(i));
        MarkTouchedAt(i);
        assert Observed().stamps == v.stamps[i := counter];
        forall sets | SetsOf(sets, v, tables, counter)
          ensures SetsOf(sets.(accounts := sets.accounts + {a}), Observed(), tables, counter)
        {
          AccountRowWarmed(v, Observed(), tables, counter, i, sets);
        }
      } else {
        SetAccountKey(a, counter);
        forall sets | SetsOf(sets, v, tables, counter)
          ensures SetsOf(sets.(accounts := sets.accounts + {a}), Observed(), tables, counter)
        {
          KeyWarmed(v, Observed(), tables, counter, a, sets);
        }
      }
    }

    method PrewarmSlot(k: SlotKey)
      requires Ok() && journal == []
      modifies this`slots, this`warmSlots, this`memoValid, this`memoKey, this`memoResult
      ensures Ok() && journal == []
      ensures forall sets :: old(SetsOf(sets, Observed(), tables, counter)) ==>
        SetsOf(sets.(slots := sets.slots + {k}), Observed(), tables, counter)
    {
      ghost var v := Observed();
      var found := Find(k);
      if found.Nothing? {
        SetSlotKey(k, counter);
        forall sets | SetsOf(sets, v, tables, counter)
          ensures SetsOf(sets.(slots := sets.slots + {k}), Observed(), tables, counter)
        {
          SlotKeyWarmed(v, Observed(), tables, counter, k, sets);
        }
      } else {
        StepValid(State(), TouchSlot(found.idx));
        MarkSlotTouchedAt(found.idx);
        assert Observed().slotStamps == v.slotStamps[found.idx := counter];
        forall sets | SetsOf(sets, v, tables, counter)
          ensures SetsOf(sets.(slots := sets.slots + {k}), Observed(), tables, counter)
        {
          SlotRowWarmed(v, Observed(), tables, counter, found.idx, sets);
        }
      }
    }
  }
}
