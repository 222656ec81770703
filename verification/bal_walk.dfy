/** The final walk over the tables in sorted order, along links nobody vouches for. */
module SortedWalk {

  const NO_LINK := 0xFFFF_FFFF_FFFF_FFFF

  /** The rows and the links of the input.  Addresses and keys are numbers here: comparing
      big-endian bytes is comparing numbers. */
  datatype Rows = Rows(
    addresses: seq<nat>, firstAccount: nat, nextAccount: seq<nat>, firstSlot: seq<nat>, accountAccessed: seq<bool>,
    owners: seq<nat>, keys: seq<nat>, nextSlot: seq<nat>, slotAccessed: seq<bool>)

  predicate Shaped(w: Rows) {
    && |w.addresses| == |w.nextAccount| == |w.firstSlot| == |w.accountAccessed| < NO_LINK
    && |w.owners| == |w.keys| == |w.nextSlot| == |w.slotAccessed| < NO_LINK
  }

  // ----- what a good walk is ----------------------------------------------------------------------

  /** `ids` is the whole chain of links from `start`. */
  ghost predicate Chain(next: seq<nat>, start: nat, ids: seq<nat>) {
    && start == (if ids == [] then NO_LINK else ids[0])
    && (forall k :: 0 <= k < |ids| ==> ids[k] < |next|)
    && (forall k :: 0 <= k < |ids| ==> LinkedOn(next, ids, k))
  }

  /** The link of the `k`-th row leads to the next one, or nowhere from the last. */
  predicate LinkedOn(next: seq<nat>, ids: seq<nat>, k: nat)
    requires k < |ids| && ids[k] < |next|
  {
    next[ids[k]] == if k + 1 < |ids| then ids[k + 1] else NO_LINK
  }

  ghost predicate SlotsOf(w: Rows, row: nat, ids: seq<nat>)
    requires Shaped(w) && row < |w.addresses|
  {
    && Chain(w.nextSlot, w.firstSlot[row], ids)
    && (forall k :: 0 <= k < |ids| ==> w.owners[ids[k]] == w.addresses[row])
    && (forall j, k :: 0 <= j < k < |ids| ==> w.keys[ids[j]] < w.keys[ids[k]])
  }

  function Count(ss: seq<seq<nat>>): nat {
    if ss == [] then 0 else Count(ss[..|ss| - 1]) + |ss[|ss| - 1]|
  }

  /** The slots of `ids` that were accessed, in order. */
  function Picked(w: Rows, ids: seq<nat>): seq<nat>
    requires Shaped(w) && forall k :: 0 <= k < |ids| ==> ids[k] < |w.owners|
  {
    if ids == [] then []
    else
      var last := ids[|ids| - 1];
      Picked(w, ids[..|ids| - 1]) + if w.slotAccessed[last] then [last] else []
  }

  /** Links that spell the accounts by address, each with its own slots by key, and no
      accessed slot below an account that was not. */
  ghost predicate Spells(w: Rows, accounts: seq<nat>, slots: seq<seq<nat>>)
    requires Shaped(w)
  {
    && Chain(w.nextAccount, w.firstAccount, accounts)
    && |slots| == |accounts|
    && (forall j, k :: 0 <= j < k < |accounts| ==> w.addresses[accounts[j]] < w.addresses[accounts[k]])
    && (forall k :: 0 <= k < |accounts| ==> SlotsOf(w, accounts[k], slots[k]) && Owned(w, accounts[k], slots[k]))
  }

  ghost predicate Owned(w: Rows, row: nat, ids: seq<nat>)
    requires Shaped(w) && row < |w.addresses| && SlotsOf(w, row, ids)
  {
    w.accountAccessed[row] || Picked(w, ids) == []
  }

  /** ... and that reach as many rows as there are. */
  ghost predicate Complete(w: Rows, accounts: seq<nat>, slots: seq<seq<nat>>)
    requires Shaped(w)
  {
    Spells(w, accounts, slots) && |accounts| == |w.addresses| && Count(slots) == |w.owners|
  }

  // ----- pigeonhole --------------------------------------------------------------------------------

  lemma {:induction false} DistinctCount(ids: seq<nat>, n: nat)
    requires forall k :: 0 <= k < |ids| ==> ids[k] < n
    requires forall j, k :: 0 <= j < k < |ids| ==> ids[j] != ids[k]
    ensures |ids| <= n
    ensures |ids| == n ==> forall x :: 0 <= x < n ==> x in ids
    decreases n
  {
    assert |ids| > 0 ==> ids[0] < n;
    if n > 0 {
      if n - 1 in ids {
        var p :| 0 <= p < |ids| && ids[p] == n - 1;
        var rest := ids[..p] + ids[p + 1..];
        DistinctCount(rest, n - 1);
        forall x | 0 <= x < n && |ids| == n ensures x in ids {
          if x < n - 1 {
            assert x in rest;
          }
        }
      } else {
        DistinctCount(ids, n - 1);
      }
    }
  }

  /** All slots of a walk in one sequence. */
  function Flat(ss: seq<seq<nat>>): (r: seq<nat>)
    ensures |r| == Count(ss)
  {
    if ss == [] then [] else Flat(ss[..|ss| - 1]) + ss[|ss| - 1]
  }

  lemma {:induction false} FlatFrom(ss: seq<seq<nat>>, x: nat)
    requires x in Flat(ss)
    ensures exists i :: 0 <= i < |ss| && x in ss[i]
    decreases |ss|
  {
    var n := |ss| - 1;
    if x in Flat(ss[..n]) {
      FlatFrom(ss[..n], x);
      var i :| 0 <= i < n && x in ss[..n][i];
      assert x in ss[i];
    } else {
      assert x in ss[n];
    }
  }

  lemma {:induction false} FlatDistinct(ss: seq<seq<nat>>)
    requires forall i, j, k :: 0 <= i < |ss| && 0 <= j < k < |ss[i]| ==> ss[i][j] != ss[i][k]
    requires forall i, j, x :: 0 <= i < j < |ss| && x in ss[i] ==> x !in ss[j]
    ensures forall j, k :: 0 <= j < k < |Flat(ss)| ==> Flat(ss)[j] != Flat(ss)[k]
    decreases |ss|
  {
    if ss != [] {
      var n := |ss| - 1;
      FlatDistinct(ss[..n]);
      var a, b := Flat(ss[..n]), ss[n];
      forall j, k | 0 <= j < k < |a + b| ensures (a + b)[j] != (a + b)[k] {
        if j < |a| <= k {
          FlatFrom(ss[..n], a[j]);
          var i :| 0 <= i < n && a[j] in ss[..n][i];
          assert ss[i] == ss[..n][i] && b[k - |a|] in ss[n];
        }
      }
    }
  }

  predicate InSome(ss: seq<seq<nat>>, x: nat) {
    exists k :: 0 <= k < |ss| && x in ss[k]
  }

  /** A complete walk visits every account once, by increasing address, and every slot
      once, under its own account, by increasing key. */
  lemma EveryRowOnce(w: Rows, accounts: seq<nat>, slots: seq<seq<nat>>)
    requires Shaped(w) && Complete(w, accounts, slots)
    ensures forall r :: 0 <= r < |w.addresses| ==> r in accounts
    ensures forall j, k :: 0 <= j < k < |accounts| ==> accounts[j] != accounts[k]
    ensures forall s :: 0 <= s < |w.owners| ==> InSome(slots, s)
    ensures forall j, k, s :: 0 <= j < k < |slots| && s in slots[j] ==> s !in slots[k]
    ensures forall k, s :: 0 <= k < |slots| && s in slots[k] ==> s < |w.owners| && w.owners[s] == w.addresses[accounts[k]]
  {
    assert forall j, k :: 0 <= j < k < |accounts| ==> w.addresses[accounts[j]] < w.addresses[accounts[k]];
    DistinctCount(accounts, |w.addresses|);
    forall k | 0 <= k < |slots| ensures SlotsOf(w, accounts[k], slots[k]) {}
    forall k, s | 0 <= k < |slots| && s in slots[k] ensures s < |w.owners| && w.owners[s] == w.addresses[accounts[k]] {
      assert SlotsOf(w, accounts[k], slots[k]);
      var p :| 0 <= p < |slots[k]| && slots[k][p] == s;
    }
    forall i, j, k | 0 <= i < |slots| && 0 <= j < k < |slots[i]| ensures slots[i][j] != slots[i][k] {
      assert SlotsOf(w, accounts[i], slots[i]);
      assert w.keys[slots[i][j]] < w.keys[slots[i][k]];
    }
    FlatDistinct(slots);
    forall p | 0 <= p < |Flat(slots)| ensures Flat(slots)[p] < |w.owners| {
      FlatFrom(slots, Flat(slots)[p]);
    }
    DistinctCount(Flat(slots), |w.owners|);
    forall s | 0 <= s < |w.owners| ensures InSome(slots, s) {
      FlatFrom(slots, s);
    }
  }

  // ----- the walk -------------------------------------------------------------------------------------

  /** `ids` were followed from `start`, and `cur` is the next link. */
  ghost predicate Partial(next: seq<nat>, start: nat, ids: seq<nat>, cur: nat) {
    && (forall k :: 0 <= k < |ids| ==> ids[k] < |next|)
    && (ids != [] ==> ids[0] == start)
    && (forall k :: 0 <= k < |ids| - 1 ==> LinkedOn(next, ids, k))
    && cur == (if ids == [] then start else next[ids[|ids| - 1]])
  }

  /** A walk has no choice: whatever chain the links spell, it begins with what was
      followed. */
  lemma {:induction false} Forced(next: seq<nat>, start: nat, ids: seq<nat>, cur: nat, chain: seq<nat>)
    requires |next| < NO_LINK && Partial(next, start, ids, cur) && Chain(next, start, chain)
    ensures |ids| <= |chain| && ids == chain[..|ids|]
    ensures cur == if |ids| < |chain| then chain[|ids|] else NO_LINK
    decreases |ids|
  {
    if ids != [] {
      var n := |ids| - 1;
      var prev := if n == 0 then start else next[ids[n - 1]];
      forall k | 0 <= k < n - 1 ensures LinkedOn(next, ids[..n], k) {
        assert LinkedOn(next, ids, k);
      }
      assert n > 0 ==> LinkedOn(next, ids, n - 1);
      assert Partial(next, start, ids[..n], prev);
      Forced(next, start, ids[..n], prev, chain);
      assert ids == ids[..n] + [ids[n]];
      assert chain[n] == prev == ids[n];
      assert LinkedOn(next, chain, n);
    }
  }

  lemma Followed(next: seq<nat>, start: nat, ids: seq<nat>, cur: nat)
    requires Partial(next, start, ids, cur) && cur < |next|
    ensures Partial(next, start, ids + [cur], next[cur])
  {
    forall k | 0 <= k < |ids| ensures LinkedOn(next, ids + [cur], k) {
      assert k < |ids| - 1 ==> LinkedOn(next, ids, k);
    }
  }

  ghost predicate GoodSlots(w: Rows, row: nat, ids: seq<nat>)
    requires Shaped(w) && row < |w.addresses|
  {
    && (forall k :: 0 <= k < |ids| ==> ids[k] < |w.owners| && w.owners[ids[k]] == w.addresses[row])
    && (forall j, k :: 0 <= j < k < |ids| ==> w.keys[ids[j]] < w.keys[ids[k]])
  }

  lemma OneMoreSlot(w: Rows, row: nat, ids: seq<nat>, s: nat)
    requires Shaped(w) && row < |w.addresses| && GoodSlots(w, row, ids)
    requires s < |w.owners| && w.owners[s] == w.addresses[row]
    requires ids != [] ==> w.keys[ids[|ids| - 1]] < w.keys[s]
    ensures GoodSlots(w, row, ids + [s])
    ensures Picked(w, ids + [s]) == Picked(w, ids) + if w.slotAccessed[s] then [s] else []
  {
    var xs := ids + [s];
    assert xs[..|ids|] == ids;
    forall j, k | 0 <= j < k < |xs| ensures w.keys[xs[j]] < w.keys[xs[k]] {
      if k == |ids| && j < k - 1 {
        assert w.keys[ids[j]] < w.keys[ids[k - 1]];
      }
    }
  }

  /** The slots of one account; refuses exactly when the links do not spell them or
      reach more slots than there are. */
  method WalkSlots(w: Rows, row: nat, seen: nat) returns (ok: bool, ids: seq<nat>, picked: seq<nat>)
    requires Shaped(w) && row < |w.addresses| && seen <= |w.owners|
    ensures ok ==> SlotsOf(w, row, ids) && seen + |ids| <= |w.owners| && picked == Picked(w, ids)
    ensures !ok ==> forall chain :: SlotsOf(w, row, chain) ==> seen + |chain| > |w.owners|
  {
    ids, picked := [], [];
    var s: nat := w.firstSlot[row];
    while s != NO_LINK
      invariant Partial(w.nextSlot, w.firstSlot[row], ids, s) && GoodSlots(w, row, ids)
      invariant seen + |ids| <= |w.owners| && picked == Picked(w, ids)
      decreases |w.owners| - seen - |ids|
    {
      forall chain | SlotsOf(w, row, chain)
        ensures |ids| < |chain| && s == chain[|ids|] && ids == chain[..|ids|]
      {
        Forced(w.nextSlot, w.firstSlot[row], ids, s, chain);
      }
      if s >= |w.owners| || seen + |ids| + 1 > |w.owners| { return false, [], []; }
      if w.owners[s] != w.addresses[row] { return false, [], []; }
      if ids != [] && w.keys[ids[|ids| - 1]] >= w.keys[s] { return false, [], []; }
      Followed(w.nextSlot, w.firstSlot[row], ids, s);
      OneMoreSlot(w, row, ids, s);
      if w.slotAccessed[s] { picked := picked + [s]; }
      ids := ids + [s];
      s := w.nextSlot[s];
    }
    ok := true;
  }

  /** What is encoded: the accessed accounts with their accessed slots, in walk order. */
  function Emitted(w: Rows, accounts: seq<nat>, slots: seq<seq<nat>>): seq<(nat, seq<nat>)>
    requires Shaped(w) && |accounts| == |slots|
    requires forall k :: 0 <= k < |accounts| ==> accounts[k] < |w.addresses|
    requires forall i, k :: 0 <= i < |slots| && 0 <= k < |slots[i]| ==> slots[i][k] < |w.owners|
  {
    if accounts == [] then []
    else
      var n := |accounts| - 1;
      Emitted(w, accounts[..n], slots[..n]) +
      if w.accountAccessed[accounts[n]] then [(accounts[n], Picked(w, slots[n]))] else []
  }

  ghost predicate GoodAccounts(w: Rows, accounts: seq<nat>, slots: seq<seq<nat>>)
    requires Shaped(w)
  {
    && |slots| == |accounts|
    && (forall k :: 0 <= k < |accounts| ==> accounts[k] < |w.addresses|)
    && (forall j, k :: 0 <= j < k < |accounts| ==> w.addresses[accounts[j]] < w.addresses[accounts[k]])
    && (forall k :: 0 <= k < |accounts| ==> SlotsOf(w, accounts[k], slots[k]) && Owned(w, accounts[k], slots[k]))
  }

  lemma OneMoreAccount(w: Rows, accounts: seq<nat>, slots: seq<seq<nat>>, row: nat, ids: seq<nat>)
    requires Shaped(w) && GoodAccounts(w, accounts, slots) && row < |w.addresses|
    requires accounts != [] ==> w.addresses[accounts[|accounts| - 1]] < w.addresses[row]
    requires SlotsOf(w, row, ids) && Owned(w, row, ids)
    ensures GoodAccounts(w, accounts + [row], slots + [ids])
  {
    var xs, ss := accounts + [row], slots + [ids];
    forall k | 0 <= k < |xs| ensures xs[k] < |w.addresses| && SlotsOf(w, xs[k], ss[k]) && Owned(w, xs[k], ss[k]) {
      if k < |accounts| {
        assert xs[k] == accounts[k] && ss[k] == slots[k];
        assert SlotsOf(w, accounts[k], slots[k]) && Owned(w, accounts[k], slots[k]);
      }
    }
    forall j, k | 0 <= j < k < |xs| ensures w.addresses[xs[j]] < w.addresses[xs[k]] {
      assert xs[j] == accounts[j];
      if k == |accounts| && j < k - 1 {
        assert w.addresses[accounts[j]] < w.addresses[accounts[k - 1]];
      }
    }
  }

  lemma OneMoreEmitted(w: Rows, accounts: seq<nat>, slots: seq<seq<nat>>, row: nat, ids: seq<nat>)
    requires Shaped(w) && |accounts| == |slots| && row < |w.addresses|
    requires forall k :: 0 <= k < |accounts| ==> accounts[k] < |w.addresses|
    requires forall i, k :: 0 <= i < |slots| && 0 <= k < |slots[i]| ==> slots[i][k] < |w.owners|
    requires forall k :: 0 <= k < |ids| ==> ids[k] < |w.owners|
    ensures Count(slots + [ids]) == Count(slots) + |ids|
    ensures Emitted(w, accounts + [row], slots + [ids]) ==
            Emitted(w, accounts, slots) + if w.accountAccessed[row] then [(row, Picked(w, ids))] else []
  {
    assert (accounts + [row])[..|accounts|] == accounts && (slots + [ids])[..|slots|] == slots;
  }

  lemma GoodIndices(w: Rows, accounts: seq<nat>, slots: seq<seq<nat>>)
    requires Shaped(w) && GoodAccounts(w, accounts, slots)
    ensures forall i, k :: 0 <= i < |slots| && 0 <= k < |slots[i]| ==> slots[i][k] < |w.owners|
  {
    forall i, k | 0 <= i < |slots| && 0 <= k < |slots[i]| ensures slots[i][k] < |w.owners| {
      assert SlotsOf(w, accounts[i], slots[i]);
    }
  }

  /** Any complete spelling of the links begins with the accounts and slots walked so far. */
  lemma SpellingForced(w: Rows, accounts: seq<nat>, slots: seq<seq<nat>>, row: nat, xs: seq<nat>, ss: seq<seq<nat>>)
    requires Shaped(w) && Partial(w.nextAccount, w.firstAccount, accounts, row) && GoodAccounts(w, accounts, slots)
    requires Spells(w, xs, ss)
    ensures |accounts| <= |xs| && accounts == xs[..|accounts|] && slots == ss[..|accounts|]
    ensures row == if |accounts| < |xs| then xs[|accounts|] else NO_LINK
    ensures Count(slots) <= Count(ss)
    ensures |accounts| < |xs| ==> Count(slots) + |ss[|accounts|]| <= Count(ss)
  {
    Forced(w.nextAccount, w.firstAccount, accounts, row, xs);
    forall k | 0 <= k < |accounts| ensures slots[k] == ss[k] {
      SameSlots(w, accounts[k], slots[k], ss[k]);
    }
    assert slots == ss[..|accounts|];
    CountNext(ss, |accounts|);
  }

  lemma CountNext(ss: seq<seq<nat>>, n: nat)
    requires n <= |ss|
    ensures Count(ss[..n]) <= Count(ss)
    ensures n < |ss| ==> Count(ss[..n]) + |ss[n]| <= Count(ss)
  {
    CountPrefix(ss, n);
    if n < |ss| {
      CountPrefix(ss, n + 1);
      assert ss[..n + 1][..n] == ss[..n];
    }
  }

  lemma SameSlots(w: Rows, row: nat, a: seq<nat>, b: seq<nat>)
    requires Shaped(w) && row < |w.addresses| && SlotsOf(w, row, a) && SlotsOf(w, row, b)
    ensures a == b
  {
    if a != [] {
      assert LinkedOn(w.nextSlot, a, |a| - 1);
    }
    assert Partial(w.nextSlot, w.firstSlot[row], a, NO_LINK);
    Forced(w.nextSlot, w.firstSlot[row], a, NO_LINK, b);
  }

  lemma {:induction false} CountPrefix(ss: seq<seq<nat>>, n: nat)
    requires n <= |ss|
    ensures Count(ss[..n]) <= Count(ss)
    decreases |ss|
  {
    if n == |ss| {
      assert ss[..n] == ss;
    } else {
      CountPrefix(ss[..|ss| - 1], n);
      assert ss[..|ss| - 1][..n] == ss[..n];
    }
  }

  /** The accounts passed so far, the link to the next, and what was emitted. */
  ghost predicate Walked(w: Rows, accounts: seq<nat>, slots: seq<seq<nat>>, row: nat, entries: seq<(nat, seq<nat>)>)
    requires Shaped(w)
  {
    && Partial(w.nextAccount, w.firstAccount, accounts, row) && GoodAccounts(w, accounts, slots)
    && |accounts| <= |w.addresses| && Count(slots) <= |w.owners|
    && (GoodIndices(w, accounts, slots); entries == Emitted(w, accounts, slots))
  }

  /** What a complete spelling would have at the next account. */
  lemma NextForced(w: Rows, accounts: seq<nat>, slots: seq<seq<nat>>, row: nat, xs: seq<nat>, ss: seq<seq<nat>>)
    requires Shaped(w) && Partial(w.nextAccount, w.firstAccount, accounts, row) && GoodAccounts(w, accounts, slots)
    requires row != NO_LINK && Complete(w, xs, ss)
    ensures |accounts| < |w.addresses| && row < |w.addresses|
    ensures accounts != [] ==> w.addresses[accounts[|accounts| - 1]] < w.addresses[row]
    ensures |accounts| < |ss| && SlotsOf(w, row, ss[|accounts|]) && Owned(w, row, ss[|accounts|])
    ensures Count(slots) + |ss[|accounts|]| <= |w.owners|
  {
    SpellingForced(w, accounts, slots, row, xs, ss);
    var n := |accounts|;
    assert xs[n] == row;
    if n > 0 {
      assert accounts[n - 1] == xs[n - 1];
      assert w.addresses[xs[n - 1]] < w.addresses[xs[n]];
    }
    assert SlotsOf(w, xs[n], ss[n]) && Owned(w, xs[n], ss[n]);
  }

  lemma WalkedOn(w: Rows, accounts: seq<nat>, slots: seq<seq<nat>>, row: nat, entries: seq<(nat, seq<nat>)>, ids: seq<nat>)
    requires Shaped(w) && Walked(w, accounts, slots, row, entries)
    requires row < |w.addresses| && |accounts| < |w.addresses|
    requires accounts != [] ==> w.addresses[accounts[|accounts| - 1]] < w.addresses[row]
    requires SlotsOf(w, row, ids) && Owned(w, row, ids) && Count(slots) + |ids| <= |w.owners|
    ensures Walked(w, accounts + [row], slots + [ids], w.nextAccount[row],
                   entries + if w.accountAccessed[row] then [(row, Picked(w, ids))] else [])
  {
    GoodIndices(w, accounts, slots);
    OneMoreAccount(w, accounts, slots, row, ids);
    GoodIndices(w, accounts + [row], slots + [ids]);
    OneMoreEmitted(w, accounts, slots, row, ids);
    Followed(w.nextAccount, w.firstAccount, accounts, row);
  }

  /** One account and its slots; refuses exactly when no complete spelling goes on here. */
  method WalkAccount(w: Rows, accounts: seq<nat>, slots: seq<seq<nat>>, row: nat, entries: seq<(nat, seq<nat>)>, seen: nat)
    returns (ok: bool, ids: seq<nat>, more: seq<(nat, seq<nat>)>)
    requires Shaped(w) && Walked(w, accounts, slots, row, entries) && row != NO_LINK && seen == Count(slots)
    ensures ok ==> row < |w.addresses| && Count(slots + [ids]) == seen + |ids|
    ensures ok ==> Walked(w, accounts + [row], slots + [ids], w.nextAccount[row], more)
    ensures !ok ==> forall xs, ss :: !Complete(w, xs, ss)
  {
    forall xs, ss | Complete(w, xs, ss)
      ensures |accounts| < |w.addresses| && row < |w.addresses|
      ensures accounts != [] ==> w.addresses[accounts[|accounts| - 1]] < w.addresses[row]
    {
      NextForced(w, accounts, slots, row, xs, ss);
    }
    if row >= |w.addresses| || |accounts| + 1 > |w.addresses| { return false, [], []; }
    if accounts != [] && w.addresses[accounts[|accounts| - 1]] >= w.addresses[row] { return false, [], []; }
    var good, found, picked := WalkSlots(w, row, seen);
    forall xs, ss | Complete(w, xs, ss) ensures good && Owned(w, row, found) {
      NextForced(w, accounts, slots, row, xs, ss);
      assert good;
      SameSlots(w, row, found, ss[|accounts|]);
    }
    if !good || (!w.accountAccessed[row] && picked != []) { return false, [], []; }
    ok, ids := true, found;
    more := if w.accountAccessed[row] then entries + [(row, picked)] else entries;
    assert entries + [] == entries;
    WalkedOn(w, accounts, slots, row, entries, ids);
    assert (slots + [ids])[..|slots|] == slots;
  }

  /** The whole walk: always terminates, and accepts exactly when the links spell every
      row in order; then the accessed rows come out in that order. */
  method Walk(w: Rows) returns (ok: bool, accounts: seq<nat>, slots: seq<seq<nat>>, entries: seq<(nat, seq<nat>)>)
    requires Shaped(w)
    ensures ok ==> Complete(w, accounts, slots) && Walked(w, accounts, slots, NO_LINK, entries)
    ensures ok ==> EntriesAre(w, entries)
    ensures !ok ==> forall xs, ss :: !Complete(w, xs, ss)
  {
    accounts, slots, entries := [], [], [];
    var row: nat := w.firstAccount;
    var seen := 0;
    while row != NO_LINK
      invariant Walked(w, accounts, slots, row, entries) && seen == Count(slots)
      decreases |w.addresses| - |accounts|
    {
      var good, ids, more := WalkAccount(w, accounts, slots, row, entries, seen);
      if !good { return false, [], [], []; }
      accounts, slots, entries, seen := accounts + [row], slots + [ids], more, seen + |ids|;
      row := w.nextAccount[row];
    }
    Finished(w, accounts, slots);
    ok := |accounts| == |w.addresses| && seen == |w.owners|;
    if ok { AccessedRows(w, accounts, slots, entries); }
  }

  lemma Finished(w: Rows, accounts: seq<nat>, slots: seq<seq<nat>>)
    requires Shaped(w) && Partial(w.nextAccount, w.firstAccount, accounts, NO_LINK) && GoodAccounts(w, accounts, slots)
    ensures Spells(w, accounts, slots)
    ensures forall xs, ss :: Spells(w, xs, ss) ==> xs == accounts && ss == slots
  {
    forall k | 0 <= k < |accounts| ensures LinkedOn(w.nextAccount, accounts, k) {
      assert k < |accounts| - 1 ==> LinkedOn(w.nextAccount, accounts, k);
    }
    forall xs, ss | Spells(w, xs, ss) ensures xs == accounts && ss == slots {
      SpellingForced(w, accounts, slots, NO_LINK, xs, ss);
      assert xs[..|accounts|] == xs && ss[..|accounts|] == ss;
    }
  }

  // ----- what comes out -------------------------------------------------------------------------------

  /** An accessed account with accessed slots of its own, by increasing key. */
  predicate EntryOk(w: Rows, e: (nat, seq<nat>)) {
    && Shaped(w) && e.0 < |w.addresses| && w.accountAccessed[e.0]
    && (forall k :: 0 <= k < |e.1| ==> SlotOk(w, e.0, e.1[k]))
    && Increasing(w, e.1)
  }

  predicate SlotOk(w: Rows, row: nat, s: nat)
    requires Shaped(w) && row < |w.addresses|
  {
    s < |w.owners| && w.slotAccessed[s] && w.owners[s] == w.addresses[row]
  }

  predicate HasAccount(entries: seq<(nat, seq<nat>)>, row: nat) {
    exists p :: 0 <= p < |entries| && entries[p].0 == row
  }

  predicate HasSlot(entries: seq<(nat, seq<nat>)>, s: nat) {
    exists p :: 0 <= p < |entries| && s in entries[p].1
  }

  /** Exactly the accessed rows, each once: accounts by increasing address, and below each
      its slots by increasing key. */
  ghost predicate EntriesAre(w: Rows, entries: seq<(nat, seq<nat>)>) {
    && Shaped(w)
    && (forall p :: 0 <= p < |entries| ==> EntryOk(w, entries[p]))
    && (forall p, q :: 0 <= p < q < |entries| ==> w.addresses[entries[p].0] < w.addresses[entries[q].0])
    && (forall row :: 0 <= row < |w.addresses| && w.accountAccessed[row] ==> HasAccount(entries, row))
    && (forall s :: 0 <= s < |w.owners| && w.slotAccessed[s] ==> HasSlot(entries, s))
  }

  predicate Increasing(w: Rows, e: seq<nat>)
    requires Shaped(w)
  {
    && (forall k :: 0 <= k < |e| ==> e[k] < |w.owners|)
    && (forall j, k :: 0 <= j < k < |e| ==> w.keys[e[j]] < w.keys[e[k]])
  }

  lemma {:induction false} PickedExactly(w: Rows, ids: seq<nat>, s: nat)
    requires Shaped(w) && forall k :: 0 <= k < |ids| ==> ids[k] < |w.owners|
    ensures s in Picked(w, ids) <==> s in ids && w.slotAccessed[s]
    decreases |ids|
  {
    if ids != [] {
      var n := |ids| - 1;
      PickedExactly(w, ids[..n], s);
      assert ids == ids[..n] + [ids[n]];
    }
  }

  lemma {:induction false} PickedIncreasing(w: Rows, ids: seq<nat>)
    requires Shaped(w) && Increasing(w, ids)
    ensures Increasing(w, Picked(w, ids))
    decreases |ids|
  {
    if ids != [] {
      var n := |ids| - 1;
      PickedIncreasing(w, ids[..n]);
      var a := Picked(w, ids[..n]);
      forall k | 0 <= k < |a| ensures w.keys[a[k]] < w.keys[ids[n]] {
        PickedExactly(w, ids[..n], a[k]);
        var i :| 0 <= i < n && ids[..n][i] == a[k];
        assert w.keys[ids[i]] < w.keys[ids[n]];
      }
    }
  }

  lemma PickedRows(w: Rows, row: nat, ids: seq<nat>)
    requires Shaped(w) && row < |w.addresses| && SlotsOf(w, row, ids)
    ensures forall k :: 0 <= k < |Picked(w, ids)| ==> SlotOk(w, row, Picked(w, ids)[k])
    ensures Increasing(w, Picked(w, ids))
    ensures forall s :: s in ids && w.slotAccessed[s] ==> s in Picked(w, ids)
  {
    var e := Picked(w, ids);
    forall k | 0 <= k < |e| ensures SlotOk(w, row, e[k]) {
      PickedExactly(w, ids, e[k]);
      var i :| 0 <= i < |ids| && ids[i] == e[k];
    }
    forall s | s in ids && w.slotAccessed[s] ensures s in e {
      PickedExactly(w, ids, s);
    }
    PickedIncreasing(w, ids);
  }

  lemma EntryPicked(w: Rows, row: nat, ids: seq<nat>)
    requires Shaped(w) && row < |w.addresses| && SlotsOf(w, row, ids) && w.accountAccessed[row]
    ensures EntryOk(w, (row, Picked(w, ids)))
    ensures forall s :: s in ids && w.slotAccessed[s] ==> s in Picked(w, ids)
  {
    PickedRows(w, row, ids);
  }

  // What the entries owe to the accounts walked, part by part.

  ghost predicate Sound(w: Rows, accounts: seq<nat>, entries: seq<(nat, seq<nat>)>)
    requires Shaped(w)
  {
    && (forall p :: 0 <= p < |entries| ==> EntryOk(w, entries[p]) && entries[p].0 in accounts)
    && (forall p, q :: 0 <= p < q < |entries| ==> w.addresses[entries[p].0] < w.addresses[entries[q].0])
  }

  ghost predicate KeepsAccounts(w: Rows, accounts: seq<nat>, entries: seq<(nat, seq<nat>)>)
    requires Shaped(w)
  {
    forall row :: row in accounts && row < |w.addresses| && w.accountAccessed[row] ==> HasAccount(entries, row)
  }

  ghost predicate KeepsSlots(w: Rows, slots: seq<seq<nat>>, entries: seq<(nat, seq<nat>)>)
    requires Shaped(w)
  {
    forall s: nat :: InSome(slots, s) && s < |w.owners| && w.slotAccessed[s] ==> HasSlot(entries, s)
  }

  lemma FewerAccounts(w: Rows, accounts: seq<nat>, slots: seq<seq<nat>>, n: nat)
    requires Shaped(w) && GoodAccounts(w, accounts, slots) && n < |accounts|
    ensures GoodAccounts(w, accounts[..n], slots[..n])
    ensures SlotsOf(w, accounts[n], slots[n]) && Owned(w, accounts[n], slots[n])
    ensures forall k :: 0 <= k < n ==> w.addresses[accounts[..n][k]] < w.addresses[accounts[n]]
  {
    forall k | 0 <= k < n
      ensures SlotsOf(w, accounts[..n][k], slots[..n][k]) && Owned(w, accounts[..n][k], slots[..n][k])
    {
      assert SlotsOf(w, accounts[k], slots[k]) && Owned(w, accounts[k], slots[k]);
    }
    assert SlotsOf(w, accounts[n], slots[n]) && Owned(w, accounts[n], slots[n]);
  }

  lemma {:induction false} EmittedCovers(w: Rows, accounts: seq<nat>, slots: seq<seq<nat>>)
    requires Shaped(w) && GoodAccounts(w, accounts, slots)
    ensures forall i, k :: 0 <= i < |slots| && 0 <= k < |slots[i]| ==> slots[i][k] < |w.owners|
    ensures Sound(w, accounts, Emitted(w, accounts, slots))
    ensures KeepsAccounts(w, accounts, Emitted(w, accounts, slots))
    ensures KeepsSlots(w, slots, Emitted(w, accounts, slots))
    decreases |accounts|
  {
    GoodIndices(w, accounts, slots);
    if accounts != [] {
      var n := |accounts| - 1;
      var xs, ss, row, ids := accounts[..n], slots[..n], accounts[n], slots[n];
      FewerAccounts(w, accounts, slots, n);
      EmittedCovers(w, xs, ss);
      OneMoreEntry(w, xs, ss, row, ids, Emitted(w, xs, ss), Emitted(w, accounts, slots));
      assert xs + [row] == accounts && ss + [ids] == slots;
    }
  }

  lemma OneMoreEntry(w: Rows, accounts: seq<nat>, slots: seq<seq<nat>>, row: nat, ids: seq<nat>,
                     before: seq<(nat, seq<nat>)>, entries: seq<(nat, seq<nat>)>)
    requires Shaped(w) && row < |w.addresses| && SlotsOf(w, row, ids) && Owned(w, row, ids)
    requires forall k :: 0 <= k < |accounts| ==> accounts[k] < |w.addresses| && w.addresses[accounts[k]] < w.addresses[row]
    requires Sound(w, accounts, before) && KeepsAccounts(w, accounts, before) && KeepsSlots(w, slots, before)
    requires entries == before + if w.accountAccessed[row] then [(row, Picked(w, ids))] else []
    ensures Sound(w, accounts + [row], entries)
    ensures KeepsAccounts(w, accounts + [row], entries) && KeepsSlots(w, slots + [ids], entries)
  {
    OneMoreSound(w, accounts, row, ids, before, entries);
    forall r | r in accounts + [row] && r < |w.addresses| && w.accountAccessed[r] ensures HasAccount(entries, r) {
      if r in accounts {
        AccountStays(before, entries, r);
      } else {
        assert entries[|before|].0 == row;
      }
    }
    OneMoreSlots(w, slots, row, ids, before, entries);
  }

  lemma OneMoreSlots(w: Rows, slots: seq<seq<nat>>, row: nat, ids: seq<nat>,
                     before: seq<(nat, seq<nat>)>, entries: seq<(nat, seq<nat>)>)
    requires Shaped(w) && row < |w.addresses| && SlotsOf(w, row, ids) && Owned(w, row, ids)
    requires KeepsSlots(w, slots, before)
    requires entries == before + if w.accountAccessed[row] then [(row, Picked(w, ids))] else []
    ensures KeepsSlots(w, slots + [ids], entries)
  {
    forall s: nat | InSome(slots + [ids], s) && s < |w.owners| && w.slotAccessed[s] ensures HasSlot(entries, s) {
      InEither(slots, ids, s);
      if InSome(slots, s) {
        SlotStays(before, entries, s);
      } else {
        PickedExactly(w, ids, s);
        assert w.accountAccessed[row];
        assert s in entries[|before|].1;
      }
    }
  }

  lemma InEither(slots: seq<seq<nat>>, ids: seq<nat>, s: nat)
    requires InSome(slots + [ids], s)
    ensures InSome(slots, s) || s in ids
  {
    var k :| 0 <= k < |slots + [ids]| && s in (slots + [ids])[k];
    if k < |slots| {
      assert s in slots[k];
    }
  }

  lemma OneMoreSound(w: Rows, accounts: seq<nat>, row: nat, ids: seq<nat>,
                     before: seq<(nat, seq<nat>)>, entries: seq<(nat, seq<nat>)>)
    requires Shaped(w) && row < |w.addresses| && SlotsOf(w, row, ids)
    requires forall k :: 0 <= k < |accounts| ==> accounts[k] < |w.addresses| && w.addresses[accounts[k]] < w.addresses[row]
    requires Sound(w, accounts, before)
    requires entries == before + if w.accountAccessed[row] then [(row, Picked(w, ids))] else []
    ensures Sound(w, accounts + [row], entries)
  {
    if w.accountAccessed[row] {
      EntryPicked(w, row, ids);
    }
    forall p | 0 <= p < |before| ensures w.addresses[before[p].0] < w.addresses[row] {
      var k :| 0 <= k < |accounts| && accounts[k] == before[p].0;
    }
    assert forall p :: 0 <= p < |before| ==> entries[p] == before[p];
  }

  lemma AccountStays(before: seq<(nat, seq<nat>)>, entries: seq<(nat, seq<nat>)>, row: nat)
    requires before <= entries && HasAccount(before, row)
    ensures HasAccount(entries, row)
  {
    var p :| 0 <= p < |before| && before[p].0 == row;
    assert entries[p].0 == row;
  }

  lemma SlotStays(before: seq<(nat, seq<nat>)>, entries: seq<(nat, seq<nat>)>, s: nat)
    requires before <= entries && HasSlot(before, s)
    ensures HasSlot(entries, s)
  {
    var p :| 0 <= p < |before| && s in before[p].1;
    assert s in entries[p].1;
  }

  lemma AccessedRows(w: Rows, accounts: seq<nat>, slots: seq<seq<nat>>, entries: seq<(nat, seq<nat>)>)
    requires Shaped(w) && Complete(w, accounts, slots) && Walked(w, accounts, slots, NO_LINK, entries)
    ensures EntriesAre(w, entries)
  {
    EveryRowOnce(w, accounts, slots);
    EmittedCovers(w, accounts, slots);
    forall row | 0 <= row < |w.addresses| && w.accountAccessed[row] ensures HasAccount(entries, row) {
      assert row in accounts;
    }
    forall s | 0 <= s < |w.owners| && w.slotAccessed[s] ensures HasSlot(entries, s) {
      assert InSome(slots, s);
    }
  }
}
