/** Whole blocks: any sequence of writes, reverts and indices, and what the access lists
    hold in the end. */
module AccessRuns {
  import opened AccessLists

  predicate InRange(v: Values, f: Field) {
    match f
    case Balance(r) => r < |v.balances|
    case Nonce(r) => r < |v.nonces|
    case Code(r) => r < |v.codes|
    case Cell(i) => i < |v.cells|
  }

  function At(v: Values, f: Field): nat
    requires InRange(v, f)
  {
    match f
    case Balance(r) => v.balances[r]
    case Nonce(r) => v.nonces[r]
    case Code(r) => v.codes[r]
    case Cell(i) => v.cells[i]
  }

  function Put(v: Values, f: Field, x: nat): (w: Values)
    requires InRange(v, f)
    ensures SameSize(v, w) && At(w, f) == x
    ensures forall g :: g != f && InRange(v, g) ==> At(w, g) == At(v, g)
  {
    match f
    case Balance(r) => v.(balances := v.balances[r := x])
    case Nonce(r) => v.(nonces := v.nonces[r := x])
    case Code(r) => v.(codes := v.codes[r := x])
    case Cell(i) => v.(cells := v.cells[i := x])
  }

  // ----- the block without any list ------------------------------------------------------------------

  datatype Op =
    | Assign(field: Field, value: nat, logged: bool)
    | Revert(to: nat)       // roll the journal back to this length
    | StartFrame            // a transaction or system call: the journal is released
    | StartIndex(index: nat)

  /** Values, journal and index, and the values at the end of every index gone by. */
  datatype Plain = Plain(now: Values, undo: seq<Undo>, stale: nat, index: nat, indices: seq<nat>, ends: seq<Values>)

  predicate SameSize(v: Values, w: Values) {
    && |v.balances| == |w.balances| && |v.nonces| == |w.nonces|
    && |v.codes| == |w.codes| && |v.cells| == |w.cells|
  }

  /** Every entry is of a field that exists. */
  predicate Fits(v: Values, undo: seq<Undo>) {
    forall k :: 0 <= k < |undo| ==> InRange(v, undo[k].field)
  }

  lemma FitsBelow(v: Values, undo: seq<Undo>, w: Values, n: nat)
    requires Fits(v, undo) && SameSize(v, w) && n <= |undo|
    ensures Fits(w, undo[..n])
  {
    forall k | 0 <= k < n ensures InRange(w, undo[..n][k].field) {
      assert InRange(v, undo[k].field);
    }
  }

  predicate PlainOk(p: Plain) {
    && p.stale <= |p.undo| && |p.indices| == |p.ends|
    && Fits(p.now, p.undo)
    && (forall k :: 0 <= k < |p.ends| ==> SameSize(p.ends[k], p.now))
  }

  /** A row exists, indices grow, and no checkpoint spans an index. */
  predicate Enabled(p: Plain, op: Op) {
    match op
    case Assign(f, _, _) => InRange(p.now, f)
    case Revert(n) => p.stale <= n <= |p.undo|
    case StartFrame => true
    case StartIndex(i) => p.index < i < NONE
  }

  /** Newest first, the logged values put back. */
  function Undone(v: Values, undo: seq<Undo>, n: nat): (r: Values)
    requires n <= |undo| && Fits(v, undo)
    ensures SameSize(r, v)
    decreases |undo|
  {
    if |undo| == n then v
    else
      var e := undo[|undo| - 1];
      FitsBelow(v, undo, Put(v, e.field, e.value), |undo| - 1);
      Undone(Put(v, e.field, e.value), undo[..|undo| - 1], n)
  }

  function Next(p: Plain, op: Op): (q: Plain)
    requires PlainOk(p) && Enabled(p, op)
    ensures PlainOk(q) && SameSize(q.now, p.now)
  {
    FitsBelow(p.now, p.undo, if op.Assign? then Put(p.now, op.field, op.value) else p.now,
              if op.Revert? then op.to else |p.undo|);
    assert p.undo[..|p.undo|] == p.undo;
    match op
    case Assign(f, x, logged) =>
      p.(now := Put(p.now, f, x), undo := if logged then p.undo + [Undo(f, At(p.now, f))] else p.undo)
    case Revert(n) => p.(now := Undone(p.now, p.undo, n), undo := p.undo[..n])
    case StartFrame => p.(undo := [], stale := 0)
    case StartIndex(i) =>
      p.(stale := |p.undo|, index := i, indices := p.indices + [p.index], ends := p.ends + [p.now])
  }

  predicate AllEnabled(p: Plain, ops: seq<Op>)
    requires PlainOk(p)
    decreases |ops|
  {
    ops == [] || (Enabled(p, ops[0]) && AllEnabled(Next(p, ops[0]), ops[1..]))
  }

  function Run(p: Plain, ops: seq<Op>): (q: Plain)
    requires PlainOk(p) && AllEnabled(p, ops)
    ensures PlainOk(q) && SameSize(q.now, p.now)
    decreases |ops|
  {
    if ops == [] then p else Run(Next(p, ops[0]), ops[1..])
  }

  function Start(v: Values): (p: Plain)
    ensures PlainOk(p)
  {
    Plain(v, [], 0, 0, [], [])
  }

  /** A field's value at the end of every index. */
  function EndsOf(ends: seq<Values>, f: Field): (r: seq<nat>)
    requires forall k :: 0 <= k < |ends| ==> InRange(ends[k], f)
    ensures |r| == |ends|
  {
    seq(|ends|, k requires 0 <= k < |ends| => At(ends[k], f))
  }

  /** One entry per index of the block whose end value differs from its start value. */
  function NetOf(v0: Values, p: Plain, f: Field): seq<(nat, nat)>
    requires PlainOk(p) && SameSize(p.now, v0) && InRange(v0, f)
  {
    NetChanges(At(v0, f), p.indices + [p.index], EndsOf(p.ends, f) + [At(p.now, f)])
  }

  /** Logged writes after a checkpoint, reverted to it, leave nothing behind. */
  lemma {:induction false} RevertedLeavesNothing(p: Plain, ws: seq<Op>)
    requires PlainOk(p) && AllEnabled(p, ws) && forall k :: 0 <= k < |ws| ==> ws[k].Assign? && ws[k].logged
    ensures var q := Run(p, ws);
            && p.undo <= q.undo && q.stale == p.stale && Next(q, Revert(|p.undo|)) == p
    decreases |ws|
  {
    if ws == [] {
      assert p.undo[..|p.undo|] == p.undo;
    } else {
      var p1 := Next(p, ws[0]);
      RevertedLeavesNothing(p1, ws[1..]);
      var q := Run(p1, ws[1..]);
      assert Undone(q.now, q.undo, |p1.undo|) == p1.now && q.undo[..|p1.undo|] == p1.undo;
      UndoneInStages(q.now, q.undo, |p1.undo|, |p.undo|);
      PutBack(p.now, ws[0].field, ws[0].value);
      assert p1.undo[..|p.undo|] == p.undo;
      assert q.undo[..|p.undo|] == p1.undo[..|p.undo|];
    }
  }

  /** The order the code keeps: a transaction releases the journal before its index starts,
      what follows the last transaction starts its index and then releases the journal for
      each system call.  Either way no entry is stale, */
  lemma FrameClears(p: Plain, i: nat)
    requires PlainOk(p) && p.index < i < NONE
    ensures var q := Next(Next(p, StartFrame), StartIndex(i)); q.stale == 0 && q.undo == []
    ensures var q := Next(Next(p, StartIndex(i)), StartFrame); q.stale == 0 && q.undo == []
  {
  }

  /** ... and none becomes so before the next index, so every checkpoint taken since can be
      reverted to. */
  lemma {:induction false} CheckpointsReachable(p: Plain, ops: seq<Op>, n: nat)
    requires PlainOk(p) && AllEnabled(p, ops) && p.stale == 0
    requires forall k :: 0 <= k < |ops| ==> !ops[k].StartIndex?
    ensures Run(p, ops).stale == 0
    ensures Enabled(Run(p, ops), Revert(n)) <==> n <= |Run(p, ops).undo|
    decreases |ops|
  {
    if ops != [] {
      CheckpointsReachable(Next(p, ops[0]), ops[1..], n);
    }
  }

  lemma PutBack(v: Values, f: Field, x: nat)
    requires InRange(v, f)
    ensures InRange(Put(v, f, x), f) && Put(Put(v, f, x), f, At(v, f)) == v
  {
    var w := Put(Put(v, f, x), f, At(v, f));
    assert w.balances == v.balances && w.nonces == v.nonces && w.codes == v.codes && w.cells == v.cells;
  }

  lemma {:induction false} UndoneInStages(v: Values, undo: seq<Undo>, k: nat, n: nat)
    requires n <= k <= |undo| && Fits(v, undo)
    ensures var w := Undone(v, undo, k);
            && Fits(w, undo[..k])
            && Undone(v, undo, n) == Undone(w, undo[..k], n)
    decreases |undo|
  {
    if |undo| == k {
      assert undo[..k] == undo;
    } else {
      var e := undo[|undo| - 1];
      FitsBelow(v, undo, Put(v, e.field, e.value), |undo| - 1);
      UndoneInStages(Put(v, e.field, e.value), undo[..|undo| - 1], k, n);
      assert undo[..|undo| - 1][..k] == undo[..k];
    }
  }

  // ----- the lists against it -----------------------------------------------------------------------------

  /** The object's values, journal and index are those of the plain block, and so is the
      past its lists are measured by. */
  ghost predicate Follows(t: Tracker, h: History, undo: seq<Undo>, stale: nat, v0: Values, p: Plain) {
    && Tracks(t, h) && PlainOk(p) && SameSize(p.now, v0)
    && t.now == p.now && undo == p.undo && stale == p.stale && t.index == p.index && h.indices == p.indices
    && forall f :: IsField(t, f) ==> FieldFollows(h, v0, p, f)
  }

  ghost predicate FieldFollows(h: History, v0: Values, p: Plain, f: Field)
    requires PlainOk(p) && SameSize(p.now, v0)
  {
    InRange(v0, f) && f in h.initial && f in h.ends && h.initial[f] == At(v0, f) && h.ends[f] == EndsOf(p.ends, f)
  }

  lemma FieldsInRange(t: Tracker, f: Field)
    requires AccessLists.Shaped(t)
    ensures IsField(t, f) <==> InRange(t.now, f)
    ensures IsField(t, f) ==> Now(t, f) == At(t.now, f)
  {
  }

  lemma WrittenIsPut(t: Tracker, f: Field, x: nat)
    requires AccessLists.Shaped(t) && IsField(t, f)
    ensures InRange(t.now, f) && Written(t, f, x).now == Put(t.now, f, x)
  {
  }

  ghost predicate Mirrors(al: AccessList, v0: Values, p: Plain)
    reads al
  {
    al.Valid() && Follows(al.State(), al.history, al.undo, al.stale, v0, p)
  }

  /** Values and journal moved, the measured past did not. */
  lemma StillFollows(t: Tracker, h: History, u: Tracker, k: History, v0: Values, p: Plain, q: Plain)
    requires Follows(t, h, p.undo, p.stale, v0, p) && Tracks(u, k) && SameHistory(k, h)
    requires |u.accounts| == |t.accounts| && |u.slots| == |t.slots| && u.now == q.now && u.index == q.index
    requires PlainOk(q) && SameSize(q.now, p.now) && q.indices == p.indices && q.ends == p.ends
    ensures Follows(u, k, q.undo, q.stale, v0, q)
  {
    forall f | IsField(u, f) ensures FieldFollows(k, v0, q, f) {
      assert IsField(t, f) && FieldFollows(h, v0, p, f);
    }
  }

  method DoAssign(al: AccessList, op: Op, ghost v0: Values, ghost p: Plain)
    requires Mirrors(al, v0, p) && Enabled(p, op) && op.Assign? && |al.changes| + 3 <= NONE
    modifies al
    ensures Mirrors(al, v0, Next(p, op)) && |al.changes| <= old(|al.changes|) + 3
    ensures |al.accounts| == old(|al.accounts|) && |al.slots| == old(|al.slots|)
  {
    ghost var t, h := al.State(), al.history;
    FieldsInRange(t, op.field);
    WrittenIsPut(t, op.field, op.value);
    al.Write(op.field, op.value, op.logged);
    StillFollows(t, h, al.State(), al.history, v0, p, Next(p, op));
  }

  method DoRevert(al: AccessList, n: nat, ghost v0: Values, ghost p: Plain)
    requires Mirrors(al, v0, p) && Enabled(p, Revert(n))
    modifies al
    ensures Mirrors(al, v0, Next(p, Revert(n))) && al.changes == old(al.changes)
    ensures |al.accounts| == old(|al.accounts|) && |al.slots| == old(|al.slots|)
  {
    ghost var q := p;
    while |al.undo| > n
      invariant n <= |al.undo| && Mirrors(al, v0, q) && al.changes == old(al.changes)
      invariant q.stale == p.stale <= n && q.indices == p.indices && q.ends == p.ends && q.index == p.index
      invariant |q.undo| <= |p.undo| && q.undo == p.undo[..|q.undo|]
      invariant Undone(q.now, q.undo, n) == Undone(p.now, p.undo, n)
      invariant |al.accounts| == old(|al.accounts|) && |al.slots| == old(|al.slots|)
      decreases |al.undo|
    {
      q := PopOne(al, v0, q);
    }
    assert p.undo[..n] == q.undo;
  }

  /** One entry back. */
  method PopOne(al: AccessList, ghost v0: Values, ghost p: Plain) returns (ghost q: Plain)
    requires Mirrors(al, v0, p) && |al.undo| > al.stale
    modifies al
    ensures Mirrors(al, v0, q) && al.changes == old(al.changes)
    ensures var e := p.undo[|p.undo| - 1];
            q == p.(now := Put(p.now, e.field, e.value), undo := p.undo[..|p.undo| - 1])
    ensures |al.accounts| == old(|al.accounts|) && |al.slots| == old(|al.slots|)
  {
    ghost var t, h := al.State(), al.history;
    ghost var e := p.undo[|p.undo| - 1];
    FieldsInRange(t, e.field);
    WrittenIsPut(t, e.field, e.value);
    q := p.(now := Put(p.now, e.field, e.value), undo := p.undo[..|p.undo| - 1]);
    al.UndoLast();
    StillFollows(t, h, al.State(), al.history, v0, p, q);
  }

  lemma AdvancedFollows(t: Tracker, h: History, i: nat, v0: Values, p: Plain)
    requires Follows(t, h, p.undo, p.stale, v0, p) && Enabled(p, StartIndex(i))
    requires Tracks(t.(index := i), Advanced(t, h))
    ensures Follows(t.(index := i), Advanced(t, h), p.undo, |p.undo|, v0, Next(p, StartIndex(i)))
  {
    var k, q := Advanced(t, h), Next(p, StartIndex(i));
    forall f | IsField(t, f) ensures FieldFollows(k, v0, q, f) {
      assert FieldFollows(h, v0, p, f);
      FieldsInRange(t, f);
      assert EndsOf(q.ends, f) == EndsOf(p.ends, f) + [At(p.now, f)];
    }
  }

  method DoStartIndex(al: AccessList, i: nat, ghost v0: Values, ghost p: Plain)
    requires Mirrors(al, v0, p) && Enabled(p, StartIndex(i))
    modifies al
    ensures Mirrors(al, v0, Next(p, StartIndex(i))) && al.changes == old(al.changes)
    ensures |al.accounts| == old(|al.accounts|) && |al.slots| == old(|al.slots|)
  {
    ghost var t, h := al.State(), al.history;
    al.SetIndex(i);
    AdvancedFollows(t, h, i, v0, p);
  }

  method Do(al: AccessList, op: Op, ghost v0: Values, ghost p: Plain)
    requires Mirrors(al, v0, p) && Enabled(p, op) && |al.changes| + 3 <= NONE
    modifies al
    ensures Mirrors(al, v0, Next(p, op)) && |al.changes| <= old(|al.changes|) + 3
    ensures |al.accounts| == old(|al.accounts|) && |al.slots| == old(|al.slots|)
  {
    match op
    case Assign(_, _, _) => DoAssign(al, op, v0, p);
    case Revert(n) => DoRevert(al, n, v0, p);
    case StartIndex(i) => DoStartIndex(al, i, v0, p);
    case StartFrame =>
      ghost var t, h := al.State(), al.history;
      al.ReleaseJournal();
      StillFollows(t, h, al.State(), al.history, v0, p, Next(p, op));
  }

  // ----- the whole block ------------------------------------------------------------------------------------

  lemma FinalIsNet(t: Tracker, h: History, undo: seq<Undo>, stale: nat, v0: Values, p: Plain, f: Field)
    requires Follows(t, h, undo, stale, v0, p) && IsField(t, f)
    ensures InRange(v0, f) && Final(t, h, f) == NetOf(v0, p, f)
  {
    assert FieldFollows(h, v0, p, f);
    FieldsInRange(t, f);
  }

  /** Any block: every list ends up with exactly the net changes of its field, index by
      index, of the same block run without any list. */
  method Block(v0: Values, ops: seq<Op>) returns (al: AccessList)
    requires |v0.balances| == |v0.nonces| == |v0.codes| && AllEnabled(Start(v0), ops)
    requires 3 * |ops| + 3 * |v0.balances| + |v0.cells| + 3 < NONE
    ensures fresh(al) && Tracks(al.State(), al.history) && al.now == Run(Start(v0), ops).now
    ensures forall f :: InRange(v0, f) ==>
              IsField(al.State(), f) && Recorded(al.State(), al.history, f) == NetOf(v0, Run(Start(v0), ops), f)
  {
    al := new AccessList(v0);
    ghost var p := Start(v0);
    StartFollows(al, v0);
    var rest := ops;
    while rest != []
      invariant fresh(al) && Mirrors(al, v0, p) && AllEnabled(p, rest) && Run(p, rest) == Run(Start(v0), ops)
      invariant |al.accounts| == |v0.balances| && |al.slots| == |v0.cells|
      invariant |rest| <= |ops| && |al.changes| <= 3 * (|ops| - |rest|)
      decreases |rest|
    {
      Do(al, rest[0], v0, p);
      p := Next(p, rest[0]);
      rest := rest[1..];
    }
    Finish(al, v0, p);
  }

  method Finish(al: AccessList, ghost v0: Values, ghost p: Plain)
    requires Mirrors(al, v0, p) && |al.changes| + 3 * |al.accounts| + |al.slots| < NONE
    modifies al
    ensures Tracks(al.State(), al.history) && al.now == p.now
    ensures forall f :: InRange(v0, f) ==>
              IsField(al.State(), f) && Recorded(al.State(), al.history, f) == NetOf(v0, p, f)
  {
    ghost var t, h, undo, stale := al.State(), al.history, al.undo, al.stale;
    al.CloseAll();
    forall f | InRange(v0, f)
      ensures IsField(al.State(), f) && Recorded(al.State(), al.history, f) == NetOf(v0, p, f)
    {
      FieldsInRange(t, f);
      FinalIsNet(t, h, undo, stale, v0, p, f);
    }
  }

  lemma StartFollows(al: AccessList, v0: Values)
    requires al.Valid() && al.now == v0 && al.index == 0 && al.undo == [] && al.stale == 0
    requires AccessLists.Shaped(al.State()) && al.history == FreshHistory(al.State())
    ensures Mirrors(al, v0, Start(v0))
  {
    var t, h := al.State(), al.history;
    forall f | IsField(t, f) ensures FieldFollows(h, v0, Start(v0), f) {
      FieldsInRange(t, f);
      FieldsAre(t, f);
      assert EndsOf([], f) == [];
    }
  }
}
