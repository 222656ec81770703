/** The block access list (EIP-7928): linked change lists filled lazily, at the first
    write of the next period, and what they spell. */
module AccessLists {

  const NONE := 0xFFFF_FFFF

  datatype Change = Change(next: nat, index: nat, value: nat)
  datatype List = List(head: nat, tail: nat)

  const NO_LIST := List(NONE, NONE)

  datatype Account = Account(
    period: nat, preBalance: nat, preNonce: nat, preCode: nat, balance: List, nonce: List, code: List)
  datatype Slot = Slot(period: nat, pre: nat, changes: List)

  /** A value the list tracks. */
  datatype Field = Balance(row: nat) | Nonce(row: nat) | Code(row: nat) | Cell(slot: nat)

  /** What the rows hold at this moment. */
  datatype Values = Values(balances: seq<nat>, nonces: seq<nat>, codes: seq<nat>, cells: seq<nat>)

  datatype Tracker = Tracker(now: Values, accounts: seq<Account>, slots: seq<Slot>, changes: seq<Change>, index: nat)

  predicate Shaped(t: Tracker) {
    && |t.now.balances| == |t.now.nonces| == |t.now.codes| == |t.accounts|
    && |t.now.cells| == |t.slots|
    && t.index < NONE
  }

  predicate IsField(t: Tracker, f: Field) {
    match f
    case Cell(i) => i < |t.slots|
    case _ => f.row < |t.accounts|
  }

  function Now(t: Tracker, f: Field): nat
    requires Shaped(t) && IsField(t, f)
  {
    match f
    case Balance(r) => t.now.balances[r]
    case Nonce(r) => t.now.nonces[r]
    case Code(r) => t.now.codes[r]
    case Cell(i) => t.now.cells[i]
  }

  function Period(t: Tracker, f: Field): nat
    requires IsField(t, f)
  {
    match f
    case Cell(i) => t.slots[i].period
    case _ => t.accounts[f.row].period
  }

  function Pre(t: Tracker, f: Field): nat
    requires IsField(t, f)
  {
    match f
    case Balance(r) => t.accounts[r].preBalance
    case Nonce(r) => t.accounts[r].preNonce
    case Code(r) => t.accounts[r].preCode
    case Cell(i) => t.slots[i].pre
  }

  function ListOf(t: Tracker, f: Field): List
    requires IsField(t, f)
  {
    match f
    case Balance(r) => t.accounts[r].balance
    case Nonce(r) => t.accounts[r].nonce
    case Code(r) => t.accounts[r].code
    case Cell(i) => t.slots[i].changes
  }

  // ----- linked lists in one array --------------------------------------------------------------

  /** `ids` are the nodes of the list, in order, all of them owned by `f`. */
  ghost predicate Chain(changes: seq<Change>, l: List, ids: seq<nat>, owner: seq<Field>, f: Field)
    requires |owner| == |changes|
  {
    && (forall k :: 0 <= k < |ids| ==> ids[k] < |changes| && owner[ids[k]] == f)
    && (forall k, j :: 0 <= k < j < |ids| ==> ids[k] < ids[j])
    && (forall k :: 0 <= k < |ids| ==> changes[ids[k]].next == if k + 1 < |ids| then ids[k + 1] else NONE)
    && l.head == (if ids == [] then NONE else ids[0])
    && l.tail == (if ids == [] then NONE else ids[|ids| - 1])
  }

  function Entry(c: Change): (nat, nat) { (c.index, c.value) }

  ghost function EntriesOf(changes: seq<Change>, ids: seq<nat>): seq<(nat, nat)>
    requires forall k :: 0 <= k < |ids| ==> ids[k] < |changes|
  {
    seq(|ids|, k requires 0 <= k < |ids| => Entry(changes[ids[k]]))
  }

  /** `BlockAccessList::push` on the array and one list. */
  function Pushed(changes: seq<Change>, l: List, index: nat, value: nat): (r: (seq<Change>, List))
    requires l.tail == NONE || l.tail < |changes|
  {
    var id := |changes|;
    var longer := changes + [Change(NONE, index, value)];
    if l.tail == NONE then (longer, List(id, id))
    else (longer[l.tail := longer[l.tail].(next := id)], List(l.head, id))
  }

  lemma PushedChain(changes: seq<Change>, l: List, ids: seq<nat>, owner: seq<Field>, f: Field, index: nat, value: nat)
    requires |owner| == |changes| < NONE && Chain(changes, l, ids, owner, f)
    ensures l.tail == NONE || l.tail < |changes|
    ensures var (more, list) := Pushed(changes, l, index, value);
            && |more| == |changes| + 1
            && Chain(more, list, ids + [|changes|], owner + [f], f)
            && EntriesOf(more, ids + [|changes|]) == EntriesOf(changes, ids) + [(index, value)]
  {
    var (more, list) := Pushed(changes, l, index, value);
    var ids' := ids + [|changes|];
    forall k | 0 <= k < |ids| ensures Entry(more[ids[k]]) == Entry(changes[ids[k]]) {}
    forall k | 0 <= k < |ids'| ensures more[ids'[k]].next == if k + 1 < |ids'| then ids'[k + 1] else NONE {
      if k < |ids| - 1 { assert ids[k] != l.tail; }
    }
  }

  /** Lists of other fields do not see a push. */
  lemma OtherChain(changes: seq<Change>, l: List, ids: seq<nat>, owner: seq<Field>, f: Field,
                   m: List, mids: seq<nat>, g: Field, index: nat, value: nat)
    requires |owner| == |changes| && f != g
    requires Chain(changes, l, ids, owner, f) && Chain(changes, m, mids, owner, g)
    ensures m.tail == NONE || m.tail < |changes|
    ensures var (more, _) := Pushed(changes, m, index, value);
            |more| == |changes| + 1 && Chain(more, l, ids, owner + [g], f) && EntriesOf(more, ids) == EntriesOf(changes, ids)
  {
  }

  // ----- what the lists should say --------------------------------------------------------------

  /** The ghost side: nodes of each list, and each field's value at the end of every
      index gone by. */
  datatype History = History(
    ids: map<Field, seq<nat>>, owner: seq<Field>, initial: map<Field, nat>,
    indices: seq<nat>, ends: map<Field, seq<nat>>)

  /** The value before index `n` of the history began. */
  function StartOf(v0: nat, ends: seq<nat>): nat {
    if ends == [] then v0 else ends[|ends| - 1]
  }

  /** One entry per index whose end value differs from its start value. */
  function NetChanges(v0: nat, indices: seq<nat>, ends: seq<nat>): seq<(nat, nat)>
    requires |indices| == |ends|
    decreases |ends|
  {
    if ends == [] then []
    else
      var n := |ends| - 1;
      NetChanges(v0, indices[..n], ends[..n]) +
      if ends[n] != StartOf(v0, ends[..n]) then [(indices[n], ends[n])] else []
  }

  lemma NetChangesPushed(v0: nat, indices: seq<nat>, ends: seq<nat>, i: nat, v: nat)
    requires |indices| == |ends|
    ensures NetChanges(v0, indices + [i], ends + [v]) ==
            NetChanges(v0, indices, ends) + if v != StartOf(v0, ends) then [(i, v)] else []
  {
    assert (indices + [i])[..|indices|] == indices && (ends + [v])[..|ends|] == ends;
  }

  /** The index and the end value of one point of the history. */
  function Point(indices: seq<nat>, ends: seq<nat>, n: nat): (nat, nat)
    requires n < |indices| == |ends|
  {
    (indices[n], ends[n])
  }

  lemma {:induction false} EveryEntryIsAPoint(v0: nat, indices: seq<nat>, ends: seq<nat>, c: (nat, nat))
    requires |indices| == |ends| && c in NetChanges(v0, indices, ends)
    ensures exists n :: 0 <= n < |ends| && c == Point(indices, ends, n)
    decreases |ends|
  {
    var n := |ends| - 1;
    if c in NetChanges(v0, indices[..n], ends[..n]) {
      EveryEntryIsAPoint(v0, indices[..n], ends[..n], c);
      var k :| 0 <= k < n && c == Point(indices[..n], ends[..n], k);
      assert c == Point(indices, ends, k);
    } else {
      assert c == Point(indices, ends, n);
    }
  }

  ghost predicate Increasing(indices: seq<nat>) {
    forall i, j :: 0 <= i < j < |indices| ==> indices[i] < indices[j]
  }

  /** An index has an entry, with its end value, exactly when it changed the value. */
  lemma {:induction false} EntryIffChanged(v0: nat, indices: seq<nat>, ends: seq<nat>, n: nat)
    requires |indices| == |ends| && Increasing(indices) && n < |ends|
    ensures Point(indices, ends, n) in NetChanges(v0, indices, ends) <==> ends[n] != StartOf(v0, ends[..n])
    decreases |ends|
  {
    var m := |ends| - 1;
    var rest := NetChanges(v0, indices[..m], ends[..m]);
    if n < m {
      EntryIffChanged(v0, indices[..m], ends[..m], n);
      assert Point(indices[..m], ends[..m], n) == Point(indices, ends, n);
      assert ends[..m][..n] == ends[..n];
    } else if Point(indices, ends, n) in rest {
      EveryEntryIsAPoint(v0, indices[..m], ends[..m], Point(indices, ends, n));
    }
  }

  /** The entries come in strictly increasing order of index. */
  lemma {:induction false} EntriesIncrease(v0: nat, indices: seq<nat>, ends: seq<nat>, i: nat, j: nat)
    requires |indices| == |ends| && Increasing(indices) && i < j < |NetChanges(v0, indices, ends)|
    ensures NetChanges(v0, indices, ends)[i].0 < NetChanges(v0, indices, ends)[j].0
    decreases |ends|
  {
    var m := |ends| - 1;
    var rest := NetChanges(v0, indices[..m], ends[..m]);
    if j < |rest| {
      EntriesIncrease(v0, indices[..m], ends[..m], i, j);
    } else {
      assert rest[i] in rest;
      EveryEntryIsAPoint(v0, indices[..m], ends[..m], rest[i]);
    }
  }

  // ----- the lazy lists against the history -----------------------------------------------------

  ghost predicate Tracks(t: Tracker, h: History) {
    && Shaped(t) && |h.owner| == |t.changes|
    && (forall f :: IsField(t, f) ==> f in h.ids && f in h.initial && f in h.ends && |h.ends[f]| == |h.indices|)
    && (forall i :: 0 <= i < |h.indices| ==> h.indices[i] < t.index)
    && Increasing(h.indices)
    && forall f :: IsField(t, f) ==> Chain(t.changes, ListOf(t, f), h.ids[f], h.owner, f)
  }

  ghost function Recorded(t: Tracker, h: History, f: Field): seq<(nat, nat)>
    requires Tracks(t, h) && IsField(t, f)
  {
    EntriesOf(t.changes, h.ids[f])
  }

  ghost function Due(t: Tracker, h: History, f: Field): seq<(nat, nat)>
    requires Tracks(t, h) && IsField(t, f)
  {
    NetChanges(h.initial[f], h.indices, h.ends[f])
  }

  /** What closing the period would still add. */
  function Owed(t: Tracker, f: Field): seq<(nat, nat)>
    requires Shaped(t) && IsField(t, f)
  {
    if Period(t, f) != NONE && Now(t, f) != Pre(t, f) then [(Period(t, f), Now(t, f))] else []
  }

  /** An open period remembers the value the index started with and the list is up to
      date; otherwise nothing was written since the index started and the list is one
      closing behind. */
  ghost predicate FieldOk(t: Tracker, h: History, f: Field)
    requires Tracks(t, h) && IsField(t, f)
  {
    var start := StartOf(h.initial[f], h.ends[f]);
    (Period(t, f) == NONE || Period(t, f) <= t.index) &&
    if Period(t, f) == t.index then Recorded(t, h, f) == Due(t, h, f) && Pre(t, f) == start
    else Now(t, f) == start && Recorded(t, h, f) + Owed(t, f) == Due(t, h, f)
  }

  ghost predicate Ok(t: Tracker, h: History) {
    Tracks(t, h) && forall f :: IsField(t, f) ==> FieldOk(t, h, f)
  }

  // ----- a new index ------------------------------------------------------------------------------

  ghost function Advanced(t: Tracker, h: History): History
    requires Tracks(t, h)
  {
    h.(indices := h.indices + [t.index],
       ends := map f | f in h.ends :: if IsField(t, f) then h.ends[f] + [Now(t, f)] else h.ends[f])
  }

  lemma AdvanceOk(t: Tracker, h: History, index: nat)
    requires Ok(t, h) && t.index < index < NONE
    ensures Ok(t.(index := index), Advanced(t, h))
  {
    AdvanceTracks(t, h, index);
    forall f | IsField(t, f) ensures FieldOk(t.(index := index), Advanced(t, h), f) {
      assert FieldOk(t, h, f);
      AdvanceField(t, h, index, f);
    }
  }

  lemma AdvanceTracks(t: Tracker, h: History, index: nat)
    requires Tracks(t, h) && t.index < index < NONE
    ensures Tracks(t.(index := index), Advanced(t, h))
  {
  }

  lemma AdvanceField(t: Tracker, h: History, index: nat, f: Field)
    requires Tracks(t, h) && IsField(t, f) && FieldOk(t, h, f) && t.index < index < NONE
    requires Tracks(t.(index := index), Advanced(t, h))
    ensures FieldOk(t.(index := index), Advanced(t, h), f)
  {
    NetChangesPushed(h.initial[f], h.indices, h.ends[f], t.index, Now(t, f));
  }

  // ----- closing and opening periods ----------------------------------------------------------------

  function WithList(t: Tracker, f: Field, l: List): Tracker
    requires IsField(t, f)
  {
    match f
    case Balance(r) => t.(accounts := t.accounts[r := t.accounts[r].(balance := l)])
    case Nonce(r) => t.(accounts := t.accounts[r := t.accounts[r].(nonce := l)])
    case Code(r) => t.(accounts := t.accounts[r := t.accounts[r].(code := l)])
    case Cell(i) => t.(slots := t.slots[i := t.slots[i].(changes := l)])
  }

  ghost predicate Linked(t: Tracker) {
    forall f :: IsField(t, f) ==> ListOf(t, f).tail == NONE || ListOf(t, f).tail < |t.changes|
  }

  /** Close one field: record its value if it differs from the period's start. */
  function Closed(t: Tracker, f: Field): Tracker
    requires Shaped(t) && Linked(t) && IsField(t, f)
  {
    if Period(t, f) != NONE && Now(t, f) != Pre(t, f) then
      var (changes, l) := Pushed(t.changes, ListOf(t, f), Period(t, f), Now(t, f));
      WithList(t.(changes := changes), f, l)
    else t
  }

  ghost function ClosedIds(t: Tracker, h: History, f: Field): History
    requires Tracks(t, h) && IsField(t, f)
  {
    if Period(t, f) != NONE && Now(t, f) != Pre(t, f) then
      h.(ids := h.ids[f := h.ids[f] + [|t.changes|]], owner := h.owner + [f])
    else h
  }

  lemma TracksLinked(t: Tracker, h: History)
    requires Tracks(t, h)
    ensures Linked(t)
  {
    forall f | IsField(t, f) ensures ListOf(t, f).tail == NONE || ListOf(t, f).tail < |t.changes| {
      assert Chain(t.changes, ListOf(t, f), h.ids[f], h.owner, f);
    }
  }

  /** Same values, periods and period starts; only lists may differ. */
  ghost predicate SameFields(t: Tracker, u: Tracker) {
    && t.now == u.now && t.index == u.index && |t.accounts| == |u.accounts| && |t.slots| == |u.slots|
    && forall f :: IsField(t, f) ==> IsField(u, f) && Period(t, f) == Period(u, f) && Pre(t, f) == Pre(u, f)
  }

  lemma WithListOk(t: Tracker, f: Field, l: List)
    requires Shaped(t) && IsField(t, f)
    ensures var u := WithList(t, f, l);
            && Shaped(u) && SameFields(t, u) && u.changes == t.changes && ListOf(u, f) == l
            && forall g :: IsField(t, g) && g != f ==> ListOf(u, g) == ListOf(t, g)
  {
  }

  predicate Owes(t: Tracker, f: Field)
    requires Shaped(t) && IsField(t, f)
  {
    Period(t, f) != NONE && Now(t, f) != Pre(t, f)
  }

  lemma ClosedFacts(t: Tracker, f: Field)
    requires Shaped(t) && Linked(t) && IsField(t, f) && Owes(t, f)
    ensures var u, p := Closed(t, f), Pushed(t.changes, ListOf(t, f), Period(t, f), Now(t, f));
            && Shaped(u) && SameFields(t, u) && u.changes == p.0 && ListOf(u, f) == p.1
            && forall g :: IsField(t, g) && g != f ==> ListOf(u, g) == ListOf(t, g)
  {
    var p := Pushed(t.changes, ListOf(t, f), Period(t, f), Now(t, f));
    WithListOk(t.(changes := p.0), f, p.1);
  }

  lemma ChainAfterPush(changes: seq<Change>, h: History, f: Field, g: Field, l: List, m: List, index: nat, value: nat)
    requires |h.owner| == |changes| < NONE && f in h.ids && g in h.ids
    requires Chain(changes, l, h.ids[f], h.owner, f) && Chain(changes, m, h.ids[g], h.owner, g) && (f == g ==> l == m)
    ensures l.tail == NONE || l.tail < |changes|
    ensures var p := Pushed(changes, l, index, value);
            var ids := if g == f then h.ids[f] + [|changes|] else h.ids[g];
            && |p.0| == |changes| + 1
            && Chain(p.0, if g == f then p.1 else m, ids, h.owner + [f], g)
            && EntriesOf(p.0, ids) == EntriesOf(changes, h.ids[g]) + if g == f then [(index, value)] else []
  {
    if g == f {
      PushedChain(changes, l, h.ids[f], h.owner, f, index, value);
    } else {
      OtherChain(changes, m, h.ids[g], h.owner, g, l, h.ids[f], f, index, value);
      assert EntriesOf(changes, h.ids[g]) + [] == EntriesOf(changes, h.ids[g]);
    }
  }

  /** Closing one field appends to its list what it owed and touches no other list. */
  lemma CloseOk(t: Tracker, h: History, f: Field)
    requires Tracks(t, h) && IsField(t, f) && |t.changes| < NONE
    ensures Linked(t)
    ensures var u, k := Closed(t, f), ClosedIds(t, h, f);
            && Tracks(u, k) && SameFields(t, u) && |u.changes| <= |t.changes| + 1
            && k.initial == h.initial && k.indices == h.indices && k.ends == h.ends
            && (forall g :: IsField(t, g) ==>
                  Recorded(u, k, g) == Recorded(t, h, g) + if g == f then Owed(t, f) else [])
  {
    TracksLinked(t, h);
    if Owes(t, f) {
      ClosedFacts(t, f);
      CloseTracks(t, h, f, Closed(t, f), ClosedIds(t, h, f));
    } else {
      forall g | IsField(t, g) ensures Recorded(t, h, g) + [] == Recorded(t, h, g) {}
    }
  }

  lemma CloseTracks(t: Tracker, h: History, f: Field, u: Tracker, k: History)
    requires Tracks(t, h) && Linked(t) && IsField(t, f) && |t.changes| < NONE && Owes(t, f)
    requires k == h.(ids := h.ids[f := h.ids[f] + [|t.changes|]], owner := h.owner + [f])
    requires var p := Pushed(t.changes, ListOf(t, f), Period(t, f), Now(t, f));
             && Shaped(u) && SameFields(t, u) && u.changes == p.0 && ListOf(u, f) == p.1
             && forall g :: IsField(t, g) && g != f ==> ListOf(u, g) == ListOf(t, g)
    ensures Tracks(u, k)
    ensures forall g :: IsField(t, g) ==>
              Recorded(u, k, g) == Recorded(t, h, g) + if g == f then Owed(t, f) else []
  {
    var l := ListOf(t, f);
    assert Chain(t.changes, l, h.ids[f], h.owner, f);
    forall g | IsField(t, g)
      ensures |u.changes| == |t.changes| + 1
      ensures Chain(u.changes, ListOf(u, g), k.ids[g], k.owner, g)
      ensures EntriesOf(u.changes, k.ids[g]) == EntriesOf(t.changes, h.ids[g]) + if g == f then Owed(t, f) else []
    {
      assert Chain(t.changes, ListOf(t, g), h.ids[g], h.owner, g);
      ChainAfterPush(t.changes, h, f, g, l, ListOf(t, g), Period(t, f), Now(t, f));
    }
  }

  /** From `t` to `u`, the fields `fs` were closed: what happened to field `g`. */
  ghost predicate AtClosed(t: Tracker, h: History, u: Tracker, k: History, fs: set<Field>, g: Field) {
    && Tracks(t, h) && Tracks(u, k) && IsField(t, g) && IsField(u, g)
    && u.now == t.now && u.index == t.index && |u.accounts| == |t.accounts| && |u.slots| == |t.slots|
    && k.initial == h.initial && k.indices == h.indices && k.ends == h.ends
    && Period(u, g) == Period(t, g) && Pre(u, g) == Pre(t, g)
    && Recorded(u, k, g) == Recorded(t, h, g) + if g in fs then Owed(t, g) else []
  }

  lemma AtClosedTrans(t: Tracker, h: History, u: Tracker, k: History, v: Tracker, l: History,
                      fs: set<Field>, gs: set<Field>, g: Field)
    requires AtClosed(t, h, u, k, fs, g) && AtClosed(u, k, v, l, gs, g) && fs !! gs
    ensures AtClosed(t, h, v, l, fs + gs, g)
  {
    assert Owed(u, g) == Owed(t, g);
    var r, o := Recorded(t, h, g), Owed(t, g);
    assert r + [] + [] == r + [] && r + o + [] == r + o && r + [] + o == r + o;
  }

  lemma CloseAt(t: Tracker, h: History, f: Field, g: Field)
    requires Tracks(t, h) && IsField(t, f) && |t.changes| < NONE && IsField(t, g)
    ensures Linked(t)
    ensures AtClosed(t, h, Closed(t, f), ClosedIds(t, h, f), {f}, g)
    ensures |Closed(t, f).changes| <= |t.changes| + 1
  {
    CloseOk(t, h, f);
  }

  // ----- accounts and slots ----------------------------------------------------------------------------

  function SetPeriod(t: Tracker, row: nat, period: nat): Tracker
    requires Shaped(t) && row < |t.accounts|
  {
    t.(accounts := t.accounts[row := t.accounts[row].(period := period)])
  }

  /** `close_account`: the three fields of the row, then the period. */
  ghost function ClosedRow(t: Tracker, h: History, row: nat): (r: (Tracker, History))
    requires Tracks(t, h) && row < |t.accounts| && |t.changes| + 3 <= NONE
    ensures Tracks(r.0, r.1)
  {
    CloseAt(t, h, Balance(row), Balance(row));
    var t1, h1 := Closed(t, Balance(row)), ClosedIds(t, h, Balance(row));
    var (t3, h3) := ClosedRest(t1, h1, row);
    PeriodTracks(t3, h3, row, NONE);
    (SetPeriod(t3, row, NONE), h3)
  }

  ghost function ClosedRest(t: Tracker, h: History, row: nat): (r: (Tracker, History))
    requires Tracks(t, h) && row < |t.accounts| && |t.changes| + 2 <= NONE
    ensures Tracks(r.0, r.1) && |r.0.accounts| == |t.accounts|
  {
    CloseAt(t, h, Nonce(row), Nonce(row));
    var t2, h2 := Closed(t, Nonce(row)), ClosedIds(t, h, Nonce(row));
    CloseAt(t2, h2, Code(row), Code(row));
    (Closed(t2, Code(row)), ClosedIds(t2, h2, Code(row)))
  }

  lemma ClosedRestAt(t: Tracker, h: History, row: nat, f: Field)
    requires Tracks(t, h) && row < |t.accounts| && |t.changes| + 2 <= NONE && IsField(t, f)
    ensures AtClosed(t, h, ClosedRest(t, h, row).0, ClosedRest(t, h, row).1, {Nonce(row), Code(row)}, f)
    ensures |ClosedRest(t, h, row).0.changes| <= |t.changes| + 2
  {
    CloseAt(t, h, Nonce(row), f);
    var t2, h2 := Closed(t, Nonce(row)), ClosedIds(t, h, Nonce(row));
    CloseAt(t2, h2, Code(row), f);
    AtClosedTrans(t, h, t2, h2, Closed(t2, Code(row)), ClosedIds(t2, h2, Code(row)), {Nonce(row)}, {Code(row)}, f);
    assert {Nonce(row)} + {Code(row)} == {Nonce(row), Code(row)};
  }

  lemma PeriodTracks(t: Tracker, h: History, row: nat, period: nat)
    requires Tracks(t, h) && row < |t.accounts|
    ensures Tracks(SetPeriod(t, row, period), h)
    ensures forall f :: IsField(t, f) ==> Recorded(SetPeriod(t, row, period), h, f) == Recorded(t, h, f)
  {
    var u := SetPeriod(t, row, period);
    forall f | IsField(u, f) ensures Chain(u.changes, ListOf(u, f), h.ids[f], h.owner, f) {
      assert Chain(t.changes, ListOf(t, f), h.ids[f], h.owner, f);
    }
  }

  predicate OnRow(f: Field, row: nat) {
    !f.Cell? && f.row == row
  }

  /** The fields of one row. */
  function RowFields(row: nat): set<Field> { {Balance(row), Nonce(row), Code(row)} }

  /** The row closed but for its period. */
  lemma ClosedThreeAt(t: Tracker, h: History, row: nat, f: Field)
    requires Tracks(t, h) && row < |t.accounts| && |t.changes| + 3 <= NONE && IsField(t, f)
    ensures Linked(t)
    ensures var t1, h1 := Closed(t, Balance(row)), ClosedIds(t, h, Balance(row));
            && Tracks(t1, h1) && row < |t1.accounts| && |t1.changes| + 2 <= NONE
            && AtClosed(t, h, ClosedRest(t1, h1, row).0, ClosedRest(t1, h1, row).1, RowFields(row), f)
            && |ClosedRest(t1, h1, row).0.changes| <= |t.changes| + 3
  {
    CloseAt(t, h, Balance(row), f);
    var t1, h1 := Closed(t, Balance(row)), ClosedIds(t, h, Balance(row));
    ClosedRestAt(t1, h1, row, f);
    AtClosedTrans(t, h, t1, h1, ClosedRest(t1, h1, row).0, ClosedRest(t1, h1, row).1,
                  {Balance(row)}, {Nonce(row), Code(row)}, f);
    assert {Balance(row)} + {Nonce(row), Code(row)} == RowFields(row);
  }

  /** What closing a whole row does to field `f`. */
  ghost predicate RowClosed(t: Tracker, h: History, u: Tracker, k: History, row: nat, f: Field) {
    && Tracks(t, h) && Tracks(u, k) && IsField(t, f) && IsField(u, f)
    && u.now == t.now && u.index == t.index && |u.accounts| == |t.accounts| && |u.slots| == |t.slots|
    && k.initial == h.initial && k.indices == h.indices && k.ends == h.ends
    && Recorded(u, k, f) == Recorded(t, h, f) + (if OnRow(f, row) then Owed(t, f) else [])
    && Pre(u, f) == Pre(t, f)
    && Period(u, f) == if OnRow(f, row) then NONE else Period(t, f)
  }

  lemma EndPeriodAt(t: Tracker, h: History, u: Tracker, k: History, row: nat, f: Field)
    requires AtClosed(t, h, u, k, RowFields(row), f) && row < |u.accounts|
    ensures RowClosed(t, h, SetPeriod(u, row, NONE), k, row, f)
  {
    PeriodAt(u, k, row, NONE, f);
    RowFieldsAre(row, f);
  }

  lemma RowFieldsAre(row: nat, f: Field)
    ensures OnRow(f, row) <==> f in RowFields(row)
  {
  }

  /** Closing a row appends to each of its three lists what it owed, and ends its period. */
  lemma ClosedRowAt(t: Tracker, h: History, row: nat, f: Field)
    requires Tracks(t, h) && row < |t.accounts| && |t.changes| + 3 <= NONE && IsField(t, f)
    ensures RowClosed(t, h, ClosedRow(t, h, row).0, ClosedRow(t, h, row).1, row, f)
    ensures |ClosedRow(t, h, row).0.changes| <= |t.changes| + 3
  {
    ClosedThreeAt(t, h, row, f);
    var t1, h1 := Closed(t, Balance(row)), ClosedIds(t, h, Balance(row));
    var r := ClosedRest(t1, h1, row);
    EndPeriodAt(t, h, r.0, r.1, row, f);
    PeriodTracks(r.0, r.1, row, NONE);
    assert ClosedRow(t, h, row) == (SetPeriod(r.0, row, NONE), r.1);
  }

  lemma PeriodAt(t: Tracker, h: History, row: nat, period: nat, f: Field)
    requires Tracks(t, h) && row < |t.accounts| && IsField(t, f)
    ensures var u := SetPeriod(t, row, period);
            && Tracks(u, h) && IsField(u, f) && Recorded(u, h, f) == Recorded(t, h, f) && Pre(u, f) == Pre(t, f)
            && Period(u, f) == if OnRow(f, row) then period else Period(t, f)
  {
    PeriodTracks(t, h, row, period);
  }

  /** `open_account`: a fresh period that starts with the row's current values. */
  function OpenedRow(t: Tracker, row: nat): Tracker
    requires Shaped(t) && row < |t.accounts|
  {
    t.(accounts := t.accounts[row := t.accounts[row].(
       preBalance := t.now.balances[row], preNonce := t.now.nonces[row], preCode := t.now.codes[row], period := t.index)])
  }

  lemma OpenedRowTracks(t: Tracker, h: History, row: nat)
    requires Tracks(t, h) && row < |t.accounts|
    ensures Tracks(OpenedRow(t, row), h)
    ensures forall f :: IsField(t, f) ==>
      && Recorded(OpenedRow(t, row), h, f) == Recorded(t, h, f)
      && Pre(OpenedRow(t, row), f) == (if OnRow(f, row) then Now(t, f) else Pre(t, f))
      && Period(OpenedRow(t, row), f) == if OnRow(f, row) then t.index else Period(t, f)
  {
    var u := OpenedRow(t, row);
    forall f | IsField(u, f) ensures Chain(u.changes, ListOf(u, f), h.ids[f], h.owner, f) {
      assert Chain(t.changes, ListOf(t, f), h.ids[f], h.owner, f);
    }
  }

  /** Whether a field is in order depends only on these parts of it. */
  lemma FieldOkFrom(t: Tracker, h: History, u: Tracker, k: History, f: Field)
    requires Tracks(t, h) && IsField(t, f) && Tracks(u, k) && IsField(u, f) && FieldOk(t, h, f)
    requires k.initial == h.initial && k.indices == h.indices && k.ends == h.ends && u.index == t.index
    requires
      || (Period(u, f) == Period(t, f) && Pre(u, f) == Pre(t, f) && Now(u, f) == Now(t, f) &&
          Recorded(u, k, f) == Recorded(t, h, f))
      || (Period(u, f) == u.index != Period(t, f) && Pre(u, f) == Now(t, f) &&
          Recorded(u, k, f) == Recorded(t, h, f) + Owed(t, f))
      || (Period(u, f) == u.index == Period(t, f) && Pre(u, f) == Pre(t, f) && Recorded(u, k, f) == Recorded(t, h, f))
    ensures FieldOk(u, k, f)
  {
  }

  /** The first write of a period: close the old one, open the new one. */
  lemma OpenRowOk(t: Tracker, h: History, row: nat)
    requires Ok(t, h) && row < |t.accounts| && |t.changes| + 3 <= NONE
    requires t.accounts[row].period != t.index
    ensures row < |ClosedRow(t, h, row).0.accounts|
    ensures Ok(OpenedRow(ClosedRow(t, h, row).0, row), ClosedRow(t, h, row).1)
  {
    ClosedRowAt(t, h, row, Balance(row));
    var (u, k) := ClosedRow(t, h, row);
    OpenedRowTracks(u, k, row);
    var v := OpenedRow(u, row);
    forall f | IsField(v, f) ensures FieldOk(v, k, f) {
      ClosedRowAt(t, h, row, f);
      assert Recorded(t, h, f) + [] == Recorded(t, h, f);
      FieldOkFrom(t, h, v, k, f);
    }
  }

  function Written(t: Tracker, f: Field, x: nat): Tracker
    requires Shaped(t) && IsField(t, f)
  {
    match f
    case Balance(r) => t.(now := t.now.(balances := t.now.balances[r := x]))
    case Nonce(r) => t.(now := t.now.(nonces := t.now.nonces[r := x]))
    case Code(r) => t.(now := t.now.(codes := t.now.codes[r := x]))
    case Cell(i) => t.(now := t.now.(cells := t.now.cells[i := x]))
  }

  lemma WrittenTracks(t: Tracker, h: History, f: Field, x: nat)
    requires Tracks(t, h) && IsField(t, f)
    ensures Tracks(Written(t, f, x), h)
  {
    var u := Written(t, f, x);
    assert u.accounts == t.accounts && u.slots == t.slots && u.changes == t.changes && u.index == t.index;
    forall g | IsField(u, g) ensures g in h.ids && Chain(u.changes, ListOf(u, g), h.ids[g], h.owner, g) {
      assert IsField(t, g) && ListOf(u, g) == ListOf(t, g);
      assert Chain(t.changes, ListOf(t, g), h.ids[g], h.owner, g);
    }
  }

  lemma WrittenAt(t: Tracker, f: Field, x: nat, g: Field)
    requires Shaped(t) && IsField(t, f) && IsField(t, g)
    ensures var u := Written(t, f, x);
            && Shaped(u) && IsField(u, g) && u.index == t.index && u.changes == t.changes
            && Period(u, g) == Period(t, g) && Pre(u, g) == Pre(t, g)
            && Now(u, g) == if g == f then x else Now(t, g)
  {
  }

  /** Within an open period any value may come and go. */
  lemma WriteOk(t: Tracker, h: History, f: Field, x: nat)
    requires Ok(t, h) && IsField(t, f) && Period(t, f) == t.index
    ensures Ok(Written(t, f, x), h)
  {
    WrittenTracks(t, h, f, x);
    var u := Written(t, f, x);
    forall g | IsField(u, g) ensures FieldOk(u, h, g) {
      WrittenAt(t, f, x, g);
      FieldOkFrom(t, h, u, h, g);
    }
  }

  function OpenedSlot(t: Tracker, i: nat): Tracker
    requires Shaped(t) && i < |t.slots|
  {
    t.(slots := t.slots[i := t.slots[i].(pre := t.now.cells[i], period := t.index)])
  }

  lemma OpenedSlotTracks(t: Tracker, h: History, i: nat)
    requires Tracks(t, h) && i < |t.slots|
    ensures Tracks(OpenedSlot(t, i), h)
    ensures forall f :: IsField(t, f) ==>
      && IsField(OpenedSlot(t, i), f) && Now(OpenedSlot(t, i), f) == Now(t, f)
      && Recorded(OpenedSlot(t, i), h, f) == Recorded(t, h, f)
      && Pre(OpenedSlot(t, i), f) == (if f == Cell(i) then Now(t, f) else Pre(t, f))
      && Period(OpenedSlot(t, i), f) == if f == Cell(i) then t.index else Period(t, f)
  {
    var u := OpenedSlot(t, i);
    forall f | IsField(u, f) ensures f in h.ids && Chain(u.changes, ListOf(u, f), h.ids[f], h.owner, f) {
      assert IsField(t, f) && ListOf(u, f) == ListOf(t, f);
      assert Chain(t.changes, ListOf(t, f), h.ids[f], h.owner, f);
    }
  }

  lemma OpenSlotOk(t: Tracker, h: History, i: nat)
    requires Ok(t, h) && i < |t.slots| && |t.changes| < NONE && t.slots[i].period != t.index
    ensures Linked(t) && Shaped(Closed(t, Cell(i))) && i < |Closed(t, Cell(i)).slots|
    ensures Ok(OpenedSlot(Closed(t, Cell(i)), i), ClosedIds(t, h, Cell(i)))
  {
    CloseAt(t, h, Cell(i), Cell(i));
    var u, k := Closed(t, Cell(i)), ClosedIds(t, h, Cell(i));
    OpenedSlotTracks(u, k, i);
    var v := OpenedSlot(u, i);
    forall f | IsField(v, f) ensures FieldOk(v, k, f) {
      CloseAt(t, h, Cell(i), f);
      assert Recorded(t, h, f) + [] == Recorded(t, h, f);
      FieldOkFrom(t, h, v, k, f);
    }
  }

  // ----- the final lists ---------------------------------------------------------------------------------

  /** What the list of `f` must hold when the block ends. */
  ghost function Final(t: Tracker, h: History, f: Field): seq<(nat, nat)>
    requires Tracks(t, h) && IsField(t, f)
  {
    NetChanges(h.initial[f], h.indices + [t.index], h.ends[f] + [Now(t, f)])
  }

  /** Closing completes the list: one entry per index whose end value differs from its
      start value, whatever was written, reverted or undone in between. */
  lemma FinalOk(t: Tracker, h: History, f: Field)
    requires Ok(t, h) && IsField(t, f)
    ensures Recorded(t, h, f) + Owed(t, f) == Final(t, h, f)
  {
    assert FieldOk(t, h, f);
    NetChangesPushed(h.initial[f], h.indices, h.ends[f], t.index, Now(t, f));
    assert Recorded(t, h, f) + [] == Recorded(t, h, f);
    assert Due(t, h, f) + [] == Due(t, h, f);
  }

  ghost function Fields(rows: nat, cells: nat): set<Field> {
    (set r | 0 <= r < rows :: Balance(r)) + (set r | 0 <= r < rows :: Nonce(r)) +
    (set r | 0 <= r < rows :: Code(r)) + (set i | 0 <= i < cells :: Cell(i))
  }

  lemma FieldsAre(t: Tracker, f: Field)
    ensures f in Fields(|t.accounts|, |t.slots|) <==> IsField(t, f)
  {
  }

  ghost function FreshHistory(t: Tracker): History
    requires Shaped(t)
  {
    var fields := Fields(|t.accounts|, |t.slots|);
    History(map f | f in fields :: [], [], map f | f in fields :: (FieldsAre(t, f); Now(t, f)), [],
            map f | f in fields :: [])
  }

  predicate Fresh(t: Tracker) {
    && Shaped(t) && t.changes == []
    && (forall r :: 0 <= r < |t.accounts| ==> t.accounts[r] == Account(NONE, 0, 0, 0, NO_LIST, NO_LIST, NO_LIST))
    && (forall i :: 0 <= i < |t.slots| ==> t.slots[i] == Slot(NONE, 0, NO_LIST))
  }

  lemma FreshAt(t: Tracker, f: Field)
    requires Fresh(t) && IsField(t, f)
    ensures var h := FreshHistory(t);
            f in h.ids && f in h.initial && f in h.ends && h.ids[f] == [] && h.ends[f] == [] && h.initial[f] == Now(t, f)
    ensures ListOf(t, f) == NO_LIST && Period(t, f) == NONE
  {
    FieldsAre(t, f);
  }

  lemma FreshTracks(t: Tracker)
    requires Fresh(t)
    ensures Tracks(t, FreshHistory(t))
    ensures forall f :: IsField(t, f) ==> FreshHistory(t).initial[f] == Now(t, f)
  {
    var h := FreshHistory(t);
    forall f | IsField(t, f)
      ensures f in h.ids && f in h.initial && f in h.ends && |h.ends[f]| == |h.indices|
      ensures Chain(t.changes, ListOf(t, f), h.ids[f], h.owner, f) && h.initial[f] == Now(t, f)
    {
      FreshAt(t, f);
    }
  }

  lemma FreshOk(t: Tracker)
    requires Fresh(t)
    ensures Ok(t, FreshHistory(t))
    ensures forall f :: IsField(t, f) ==> FreshHistory(t).initial[f] == Now(t, f)
  {
    FreshTracks(t);
    forall f | IsField(t, f) ensures FieldOk(t, FreshHistory(t), f) {
      FreshAt(t, f);
    }
  }

  // ----- closing everything -----------------------------------------------------------------------------------

  predicate Done(f: Field, rows: nat, cells: nat) {
    if f.Cell? then f.slot < cells else f.row < rows
  }

  /** The first rows and slots are closed; the others are as they were. */
  ghost predicate ClosedAt(t: Tracker, h: History, u: Tracker, k: History, rows: nat, cells: nat, f: Field) {
    && Tracks(t, h) && Tracks(u, k) && IsField(t, f) && IsField(u, f)
    && (if Done(f, rows, cells) then Recorded(u, k, f) == Recorded(t, h, f) + Owed(t, f)
        else Recorded(u, k, f) == Recorded(t, h, f) && Period(u, f) == Period(t, f) && Pre(u, f) == Pre(t, f))
  }

  ghost predicate PartlyClosed(t: Tracker, h: History, u: Tracker, k: History, rows: nat, cells: nat) {
    && Tracks(t, h) && Tracks(u, k) && SameHistory(k, h)
    && u.now == t.now && u.index == t.index && |u.accounts| == |t.accounts| && |u.slots| == |t.slots|
    && forall f :: IsField(t, f) ==> ClosedAt(t, h, u, k, rows, cells, f)
  }

  lemma RowStep(t: Tracker, h: History, u: Tracker, k: History, v: Tracker, l: History, rows: nat, f: Field)
    requires ClosedAt(t, h, u, k, rows, 0, f) && RowClosed(u, k, v, l, rows, f) && u.now == t.now
    ensures ClosedAt(t, h, v, l, rows + 1, 0, f)
  {
    assert Recorded(u, k, f) + [] == Recorded(u, k, f);
    assert !Done(f, rows, 0) ==> Owed(u, f) == Owed(t, f);
  }

  function SetSlotPeriod(t: Tracker, i: nat, period: nat): Tracker
    requires Shaped(t) && i < |t.slots|
  {
    t.(slots := t.slots[i := t.slots[i].(period := period)])
  }

  lemma SlotPeriodTracks(t: Tracker, h: History, i: nat, period: nat)
    requires Tracks(t, h) && i < |t.slots|
    ensures Tracks(SetSlotPeriod(t, i, period), h)
  {
    var u := SetSlotPeriod(t, i, period);
    forall f | IsField(u, f) ensures f in h.ids && Chain(u.changes, ListOf(u, f), h.ids[f], h.owner, f) {
      assert IsField(t, f) && ListOf(u, f) == ListOf(t, f);
      assert Chain(t.changes, ListOf(t, f), h.ids[f], h.owner, f);
    }
  }

  lemma CellEnded(t: Tracker, h: History, u: Tracker, k: History, rows: nat, i: nat, f: Field)
    requires ClosedAt(t, h, u, k, rows, i + 1, f) && i < |u.slots|
    ensures ClosedAt(t, h, SetSlotPeriod(u, i, NONE), k, rows, i + 1, f)
  {
    SlotPeriodTracks(u, k, i, NONE);
  }

  lemma CellStep(t: Tracker, h: History, u: Tracker, k: History, v: Tracker, l: History, rows: nat, i: nat, f: Field)
    requires ClosedAt(t, h, u, k, rows, i, f) && AtClosed(u, k, v, l, {Cell(i)}, f) && u.now == t.now
    ensures ClosedAt(t, h, v, l, rows, i + 1, f)
  {
    assert Recorded(u, k, f) + [] == Recorded(u, k, f);
    assert !Done(f, rows, i) ==> Owed(u, f) == Owed(t, f);
    assert f in {Cell(i)} <==> f == Cell(i);
  }

  // ----- the journal's entries ---------------------------------------------------------------------------

  /** What the journal keeps of one write: the field and the value before it. */
  datatype Undo = Undo(field: Field, value: nat)

  /** The entries from `stale` on were made in this index, so their fields have an open
      period; no checkpoint reaches below them. */
  ghost predicate UndoOpen(t: Tracker, undo: seq<Undo>, stale: nat) {
    && stale <= |undo|
    && forall k :: stale <= k < |undo| ==> IsField(t, undo[k].field) && Period(t, undo[k].field) == t.index
  }

  /** No period that was open is closed. */
  ghost predicate StaysOpen(t: Tracker, u: Tracker) {
    && u.index == t.index && |u.accounts| == |t.accounts| && |u.slots| == |t.slots|
    && forall f :: IsField(t, f) && Period(t, f) == t.index ==> Period(u, f) == u.index
  }

  lemma UndoKept(t: Tracker, u: Tracker, undo: seq<Undo>, stale: nat)
    requires UndoOpen(t, undo, stale) && StaysOpen(t, u)
    ensures UndoOpen(u, undo, stale)
  {
    forall k | stale <= k < |undo| ensures IsField(u, undo[k].field) && Period(u, undo[k].field) == u.index {
      assert IsField(t, undo[k].field);
    }
  }

  /** Closing and reopening a row leaves the slots alone and no other row's period. */
  lemma ReopenedRow(t: Tracker, h: History, row: nat)
    requires Ok(t, h) && row < |t.accounts| && |t.changes| + 3 <= NONE
    ensures var u := ClosedRow(t, h, row).0;
            && Shaped(u) && row < |u.accounts| && |u.changes| <= |t.changes| + 3 && u.slots == t.slots
            && StaysOpen(t, OpenedRow(u, row))
  {
    ClosedRowAt(t, h, row, Balance(row));
    ClosedRowSlots(t, h, row);
    var u := ClosedRow(t, h, row).0;
    forall f | IsField(t, f) && Period(t, f) == t.index ensures Period(OpenedRow(u, row), f) == t.index {
      ClosedRowAt(t, h, row, f);
    }
  }

  lemma ClosedRowSlots(t: Tracker, h: History, row: nat)
    requires Tracks(t, h) && row < |t.accounts| && |t.changes| + 3 <= NONE
    ensures ClosedRow(t, h, row).0.slots == t.slots
  {
    ClosedThreeAt(t, h, row, Balance(row));
  }

  lemma ReopenedSlot(t: Tracker, h: History, i: nat)
    requires Ok(t, h) && i < |t.slots| && |t.changes| < NONE
    ensures Linked(t)
    ensures var u := Closed(t, Cell(i));
            && Shaped(u) && i < |u.slots| && |u.changes| <= |t.changes| + 1 && u.accounts == t.accounts
            && StaysOpen(t, OpenedSlot(u, i))
  {
    CloseAt(t, h, Cell(i), Cell(i));
  }

  // ----- the object ------------------------------------------------------------------------------------------

  /** The rows' values together with their access-list records. */
  class AccessList {
    var now: Values
    var accounts: seq<Account>
    var slots: seq<Slot>
    var changes: seq<Change>
    var index: nat
    var undo: seq<Undo>
    ghost var stale: nat
    ghost var history: History

    ghost function State(): Tracker
      reads this
    {
      Tracker(now, accounts, slots, changes, index)
    }

    ghost predicate Valid()
      reads this
    {
      Ok(State(), history) && UndoOpen(State(), undo, stale)
    }

    constructor (values: Values)
      requires |values.balances| == |values.nonces| == |values.codes|
      ensures Valid() && now == values && index == 0 && undo == [] && stale == 0
      ensures history == FreshHistory(State()) && changes == []
      ensures forall f :: IsField(State(), f) ==> history.initial[f] == Now(State(), f)
    {
      now := values;
      accounts := seq(|values.balances|, _ => Account(NONE, 0, 0, 0, NO_LIST, NO_LIST, NO_LIST));
      slots := seq(|values.cells|, _ => Slot(NONE, 0, NO_LIST));
      changes, index, undo, stale := [], 0, [], 0;
      new;
      history := FreshHistory(State());
      FreshOk(State());
    }

    /** Indices only grow; nothing else happens at a new one.  No checkpoint spans it. */
    method SetIndex(i: nat)
      requires Valid() && index < i < NONE
      modifies this`index, this`history, this`stale
      ensures Valid() && index == i && stale == |undo| && history == Advanced(old(State()), old(history))
    {
      AdvanceOk(State(), history, i);
      history := Advanced(State(), history);
      index, stale := i, |undo|;
    }

    /** A transaction or a system call starts with an empty journal. */
    method ReleaseJournal()
      requires Valid()
      modifies this`undo, this`stale
      ensures Valid() && undo == [] && stale == 0
    {
      undo, stale := [], 0;
    }

    method Push(l: List, i: nat, value: nat) returns (r: List)
      requires l.tail == NONE || l.tail < |changes|
      modifies this`changes
      ensures (changes, r) == Pushed(old(changes), l, i, value)
    {
      var id := |changes|;
      changes := changes + [Change(NONE, i, value)];
      r := l;
      if l.tail == NONE {
        r := r.(head := id);
      } else {
        changes := changes[l.tail := changes[l.tail].(next := id)];
      }
      r := r.(tail := id);
    }

    /** Close one field of the row, or one slot. */
    method CloseField(f: Field)
      requires Tracks(State(), history) && IsField(State(), f) && |changes| < NONE
      modifies this`changes, this`accounts, this`slots, this`history
      ensures Linked(old(State()))
      ensures State() == Closed(old(State()), f) && history == ClosedIds(old(State()), old(history), f)
      ensures Tracks(State(), history)
    {
      ghost var t := State();
      CloseOk(t, history, f);
      history := ClosedIds(t, history, f);
      match f {
        case Balance(row) =>
          var a := accounts[row];
          if a.period != NONE && now.balances[row] != a.preBalance {
            var l := Push(a.balance, a.period, now.balances[row]);
            accounts := accounts[row := a.(balance := l)];
          }
        case Nonce(row) =>
          var a := accounts[row];
          if a.period != NONE && now.nonces[row] != a.preNonce {
            var l := Push(a.nonce, a.period, now.nonces[row]);
            accounts := accounts[row := a.(nonce := l)];
          }
        case Code(row) =>
          var a := accounts[row];
          if a.period != NONE && now.codes[row] != a.preCode {
            var l := Push(a.code, a.period, now.codes[row]);
            accounts := accounts[row := a.(code := l)];
          }
        case Cell(i) =>
          var c := slots[i];
          if c.period != NONE && now.cells[i] != c.pre {
            var l := Push(c.changes, c.period, now.cells[i]);
            slots := slots[i := c.(changes := l)];
          }
      }
    }

    method CloseAccount(row: nat)
      requires Tracks(State(), history) && row < |accounts| && |changes| + 3 <= NONE
      modifies this`changes, this`accounts, this`slots, this`history
      ensures Tracks(State(), history)
      ensures (State(), history) == ClosedRow(old(State()), old(history), row)
    {
      ghost var t, h := State(), history;
      ClosedThreeAt(t, h, row, Balance(row));
      CloseAt(t, h, Balance(row), Balance(row));
      CloseField(Balance(row));
      CloseRest(row);
      PeriodTracks(State(), history, row, NONE);
      accounts := accounts[row := accounts[row].(period := NONE)];
    }

    method CloseRest(row: nat)
      requires Tracks(State(), history) && row < |accounts| && |changes| + 2 <= NONE
      modifies this`changes, this`accounts, this`slots, this`history
      ensures (State(), history) == ClosedRest(old(State()), old(history), row)
    {
      CloseAt(State(), history, Nonce(row), Nonce(row));
      CloseField(Nonce(row));
      CloseAt(State(), history, Code(row), Code(row));
      CloseField(Code(row));
    }

    /** Before a write to a row: the first one of an index closes the row's old period
        and opens a new one. */
    method BeforeWrite(row: nat)
      requires Valid() && row < |accounts| && (accounts[row].period != index ==> |changes| + 3 <= NONE)
      modifies this`changes, this`accounts, this`slots, this`history
      ensures Valid() && |accounts| == old(|accounts|) && accounts[row].period == index && slots == old(slots)
      ensures |changes| <= old(|changes|) + 3
      ensures old(accounts[row].period) == index ==> changes == old(changes)
      ensures SameHistory(history, old(history))
    {
      if accounts[row].period != index {
        ghost var t := State();
        ReopenedRow(t, history, row);
        Reopen(row);
        UndoKept(t, State(), undo, stale);
      }
    }

    method Reopen(row: nat)
      requires Ok(State(), history) && row < |accounts| && |changes| + 3 <= NONE && accounts[row].period != index
      modifies this`changes, this`accounts, this`slots, this`history
      ensures Ok(State(), history) && SameHistory(history, old(history))
      ensures var u := ClosedRow(old(State()), old(history), row).0;
              Shaped(u) && row < |u.accounts| && State() == OpenedRow(u, row)
    {
      OpenRowOk(State(), history, row);
      ClosedRowAt(State(), history, row, Balance(row));
      CloseAccount(row);
      accounts := accounts[row := accounts[row].(
        preBalance := now.balances[row], preNonce := now.nonces[row], preCode := now.codes[row], period := index)];
    }

    /** One write to a row or a slot, with the value it leaves behind logged or not. */
    method Write(f: Field, x: nat, logged: bool)
      requires Valid() && IsField(State(), f) && |changes| + 3 <= NONE
      modifies this`changes, this`accounts, this`slots, this`history, this`now, this`undo
      ensures Valid() && State().now == Written(old(State()), f, x).now && SameHistory(history, old(history))
      ensures undo == if logged then old(undo) + [Undo(f, Now(old(State()), f))] else old(undo)
      ensures |accounts| == old(|accounts|) && |slots| == old(|slots|) && |changes| <= old(|changes|) + 3
    {
      var before := match f
        case Balance(r) => now.balances[r]
        case Nonce(r) => now.nonces[r]
        case Code(r) => now.codes[r]
        case Cell(i) => now.cells[i];
      match f {
        case Balance(r) => SetBalance(r, x);
        case Nonce(r) => SetNonce(r, x);
        case Code(r) => SetCode(r, x);
        case Cell(i) => SetCell(i, x);
      }
      if logged { undo := undo + [Undo(f, before)]; }
    }

    method SetBalance(row: nat, x: nat)
      requires Valid() && row < |accounts| && (accounts[row].period != index ==> |changes| + 3 <= NONE)
      modifies this`changes, this`accounts, this`slots, this`history, this`now
      ensures Valid() && now == old(now).(balances := old(now).balances[row := x])
      ensures SameHistory(history, old(history)) && slots == old(slots) && |accounts| == old(|accounts|)
      ensures accounts[row].period == index && |changes| <= old(|changes|) + 3
      ensures old(accounts[row].period) == index ==> changes == old(changes)
    {
      BeforeWrite(row);
      ghost var t := State();
      WriteOk(t, history, Balance(row), x);
      now := now.(balances := now.balances[row := x]);
      UndoKept(t, State(), undo, stale);
    }

    method SetNonce(row: nat, x: nat)
      requires Valid() && row < |accounts| && (accounts[row].period != index ==> |changes| + 3 <= NONE)
      modifies this`changes, this`accounts, this`slots, this`history, this`now
      ensures Valid() && now == old(now).(nonces := old(now).nonces[row := x])
      ensures SameHistory(history, old(history)) && slots == old(slots) && |accounts| == old(|accounts|)
      ensures accounts[row].period == index && |changes| <= old(|changes|) + 3
      ensures old(accounts[row].period) == index ==> changes == old(changes)
    {
      BeforeWrite(row);
      ghost var t := State();
      WriteOk(t, history, Nonce(row), x);
      now := now.(nonces := now.nonces[row := x]);
      UndoKept(t, State(), undo, stale);
    }

    method SetCode(row: nat, x: nat)
      requires Valid() && row < |accounts| && (accounts[row].period != index ==> |changes| + 3 <= NONE)
      modifies this`changes, this`accounts, this`slots, this`history, this`now
      ensures Valid() && now == old(now).(codes := old(now).codes[row := x])
      ensures SameHistory(history, old(history)) && slots == old(slots) && |accounts| == old(|accounts|)
      ensures accounts[row].period == index && |changes| <= old(|changes|) + 3
      ensures old(accounts[row].period) == index ==> changes == old(changes)
    {
      BeforeWrite(row);
      ghost var t := State();
      WriteOk(t, history, Code(row), x);
      now := now.(codes := now.codes[row := x]);
      UndoKept(t, State(), undo, stale);
    }

    method SetCell(i: nat, x: nat)
      requires Valid() && i < |slots| && |changes| < NONE
      modifies this`changes, this`accounts, this`slots, this`history, this`now
      ensures Valid() && now == old(now).(cells := old(now).cells[i := x])
      ensures SameHistory(history, old(history)) && accounts == old(accounts) && |slots| == old(|slots|)
      ensures slots[i].period == index && |changes| <= old(|changes|) + 1
    {
      OpenSlot(i);
      PutCell(i, x);
    }

    method OpenSlot(i: nat)
      requires Valid() && i < |slots| && |changes| < NONE
      modifies this`changes, this`accounts, this`slots, this`history
      ensures Valid() && SameHistory(history, old(history)) && accounts == old(accounts) && |slots| == old(|slots|)
      ensures slots[i].period == index && |changes| <= old(|changes|) + 1
    {
      if slots[i].period != index {
        ghost var t := State();
        OpenSlotOk(t, history, i);
        ReopenedSlot(t, history, i);
        CloseField(Cell(i));
        slots := slots[i := slots[i].(pre := now.cells[i], period := index)];
        UndoKept(t, State(), undo, stale);
      }
    }

    /** The table's own setter, which asks for no period. */
    method PutCell(i: nat, x: nat)
      requires Valid() && i < |slots| && slots[i].period == index
      modifies this`now
      ensures Valid() && now == old(now).(cells := old(now).cells[i := x])
    {
      ghost var t := State();
      WriteOk(t, history, Cell(i), x);
      now := now.(cells := now.cells[i := x]);
      UndoKept(t, State(), undo, stale);
    }

    /** The journal puts the value of its last entry back.  It asks for no period, and
        none is missing: the entry was made in this index, which opened one. */
    method UndoLast()
      requires Valid() && |undo| > stale
      modifies this`changes, this`accounts, this`slots, this`history, this`now, this`undo
      ensures Valid() && SameHistory(history, old(history)) && undo == old(undo)[..|old(undo)| - 1]
      ensures var e := old(undo)[|old(undo)| - 1];
              IsField(old(State()), e.field) && State().now == Written(old(State()), e.field, e.value).now
      ensures |accounts| == old(|accounts|) && |slots| == old(|slots|) && changes == old(changes)
    {
      var e := undo[|undo| - 1];
      assert IsField(State(), e.field) && Period(State(), e.field) == index;
      undo := undo[..|undo| - 1];
      match e.field
      case Balance(r) => SetBalance(r, e.value);
      case Nonce(r) => SetNonce(r, e.value);
      case Code(r) => SetCode(r, e.value);
      case Cell(i) => PutCell(i, e.value);
    }

    /** The final pass: afterwards every list holds one entry per index whose end value
        differs from its start value, and nothing else. */
    method CloseAll()
      requires Valid() && |changes| + 3 * |accounts| + |slots| < NONE
      modifies this`changes, this`accounts, this`slots, this`history
      ensures Tracks(State(), history) && now == old(now)
      ensures forall f :: IsField(old(State()), f) ==>
        IsField(State(), f) && Recorded(State(), history, f) == Final(old(State()), old(history), f)
    {
      ghost var t, h := State(), history;
      var row := 0;
      forall f | IsField(t, f) ensures ClosedAt(t, h, t, h, 0, 0, f) {}
      while row < |accounts|
        invariant row <= |accounts| == |t.accounts| && PartlyClosed(t, h, State(), history, row, 0)
        invariant |changes| <= |t.changes| + 3 * row
      {
        CloseNextRow(row, t, h);
        row := row + 1;
      }
      var i := 0;
      while i < |slots|
        invariant i <= |slots| == |t.slots| && PartlyClosed(t, h, State(), history, row, i)
        invariant |changes| <= |t.changes| + 3 * row + i && row == |t.accounts|
      {
        CloseNextCell(i, row, t, h);
        i := i + 1;
      }
      forall f | IsField(t, f)
        ensures IsField(State(), f) && Recorded(State(), history, f) == Final(t, h, f)
      {
        assert ClosedAt(t, h, State(), history, row, i, f);
        FinalOk(t, h, f);
      }
    }

    method CloseNextRow(row: nat, ghost t: Tracker, ghost h: History)
      requires PartlyClosed(t, h, State(), history, row, 0) && row < |accounts| && |changes| + 3 <= NONE
      modifies this`changes, this`accounts, this`slots, this`history
      ensures PartlyClosed(t, h, State(), history, row + 1, 0) && |changes| <= |old(changes)| + 3
    {
      ghost var u, k := State(), history;
      ClosedRowAt(u, k, row, Balance(row));
      CloseAccount(row);
      forall f | IsField(t, f) ensures ClosedAt(t, h, State(), history, row + 1, 0, f) {
        assert ClosedAt(t, h, u, k, row, 0, f);
        ClosedRowAt(u, k, row, f);
        RowStep(t, h, u, k, State(), history, row, f);
      }
    }

    method CloseNextCell(i: nat, rows: nat, ghost t: Tracker, ghost h: History)
      requires PartlyClosed(t, h, State(), history, rows, i) && i < |slots| && |changes| < NONE
      modifies this`changes, this`accounts, this`slots, this`history
      ensures PartlyClosed(t, h, State(), history, rows, i + 1) && |changes| <= |old(changes)| + 1
    {
      ghost var u, k := State(), history;
      CloseAt(u, k, Cell(i), Cell(i));
      CloseField(Cell(i));
      ghost var v := State();
      SlotPeriodTracks(v, history, i, NONE);
      slots := slots[i := slots[i].(period := NONE)];
      forall f | IsField(t, f) ensures ClosedAt(t, h, State(), history, rows, i + 1, f) {
        assert ClosedAt(t, h, u, k, rows, i, f);
        CloseAt(u, k, Cell(i), f);
        CellStep(t, h, u, k, v, history, rows, i, f);
        CellEnded(t, h, v, history, rows, i, f);
      }
    }

    /** Following the links from the head spells the recorded entries. */
    method ReadList(f: Field) returns (es: seq<(nat, nat)>)
      requires Tracks(State(), history) && IsField(State(), f) && |changes| <= NONE
      ensures es == Recorded(State(), history, f)
    {
      ghost var ids := history.ids[f];
      assert Chain(changes, ListOf(State(), f), ids, history.owner, f);
      var l := match f
        case Balance(r) => accounts[r].balance
        case Nonce(r) => accounts[r].nonce
        case Code(r) => accounts[r].code
        case Cell(i) => slots[i].changes;
      es := [];
      var id := l.head;
      while id != NONE
        invariant |es| <= |ids| && id == if |es| < |ids| then ids[|es|] else NONE
        invariant es == EntriesOf(changes, ids)[..|es|]
        decreases |ids| - |es|
      {
        ghost var n := |es|;
        assert id == ids[n] && changes[ids[n]].next == if n + 1 < |ids| then ids[n + 1] else NONE;
        es := es + [Entry(changes[id])];
        id := changes[id].next;
      }
    }
  }

  /** Nothing about the values' past changed, only the lists' own nodes. */
  ghost predicate SameHistory(h: History, k: History) {
    h.initial == k.initial && h.indices == k.indices && h.ends == k.ends
  }
}
