/** Ether over a whole transaction: what leaves the total, and that nothing wraps. */
module Ether {
  import opened Basics
  import opened Journal
  import opened RollbackProofs
  import opened StateDatabase

  function Total(b: seq<nat>): nat {
    if b == [] then 0 else Total(b[..|b| - 1]) + b[|b| - 1]
  }

  lemma {:induction false} TotalUpdate(b: seq<nat>, i: nat, x: nat)
    requires i < |b|
    ensures Total(b[i := x]) == Total(b) - b[i] + x
    ensures b[i] <= Total(b)
    decreases |b|
  {
    var n := |b| - 1;
    if i == n {
      assert b[i := x][..n] == b[..n];
    } else {
      assert b[i := x][..n] == b[..n][i := x];
      TotalUpdate(b[..n], i, x);
    }
  }

  lemma TwoRows(b: seq<nat>, i: nat, j: nat)
    requires i < |b| && j < |b| && i != j
    ensures b[i] + b[j] <= Total(b)
  {
    TotalUpdate(b, i, 0);
    TotalUpdate(b[i := 0], j, 0);
  }

  // ----- host calls that can move ether ----------------------------------------------------------

  /** What execution may do: move value, self-destruct, or any kernel step that does
      not write balances itself. */
  datatype Call =
    | Move(from: nat, to: nat, amount: nat, event: seq<Log>)
    | Destroy(src: nat, dst: nat, destroy: bool, burn: bool, event: seq<Log>)
    | Other(op: Op)

  /** The database, with the ether burned by each journal entry's call beside it. */
  datatype Ledger = Ledger(db: Db, burns: seq<nat>)

  predicate Rows(s: Db, i: nat, j: nat) {
    i < |s.view.stamps| && j < |s.view.stamps|
  }

  /** The interpreter moves only what the account has (it checks before it calls). */
  ghost predicate Callable(l: Ledger, c: Call) {
    && Valid(l.db) && Hot(l.db) && |l.burns| == |l.db.journal|
    && match c
       case Move(f, t, x, event) => Rows(l.db, f, t) && |event| <= 1 && x <= l.db.view.balances[f]
       case Destroy(i, j, _, _, event) => Rows(l.db, i, j) && |event| <= 1
       case Other(op) => Enabled(l.db, op) && !op.WriteBalance?
  }

  ghost function Called(l: Ledger, c: Call): (r: Ledger)
    requires Callable(l, c)
    ensures Valid(r.db) && |r.db.view.stamps| == |l.db.view.stamps|
  {
    match c
    case Move(f, t, x, event) =>
      Ledger(Transferred(l.db, f, t, x, event), l.burns + if f == t then [] else [0, 0])
    case Destroy(i, j, destroy, burn, event) =>
      Ledger(SelfDestructed(l.db, i, j, destroy, burn, event), l.burns + DestroyBurns(l.db, i, j, destroy, burn))
    case Other(op) =>
      var db := After(l.db, op);
      Ledger(db, if op.Rollback? then l.burns[..op.cp]
                 else if |db.journal| > |l.db.journal| then l.burns + [0]
                 else l.burns)
  }

  function DestroyBurns(s: Db, i: nat, j: nat, destroy: bool, burn: bool): seq<nat>
    requires i < |s.view.balances|
  {
    if i == j then
      if !destroy then [] else if burn then [s.view.balances[i], 0] else [0]
    else if destroy then [0, 0, 0] else [0, 0]
  }

  /** Ether held plus ether burned is the same now and at every open checkpoint. */
  ghost predicate Balanced(l: Ledger, total: nat) {
    && Valid(l.db) && Hot(l.db) && |l.burns| == |l.db.journal|
    && Total(l.db.view.balances) + Total(l.burns) == total
    && forall p :: 0 <= p < |l.db.journal| && l.db.journal[p].Marker? ==> SavedTotal(l, p, total)
  }

  ghost predicate SavedTotal(l: Ledger, p: nat, total: nat) {
    && p <= |l.db.journal| && |l.burns| == |l.db.journal|
    && Total(Base(l.db, p).balances) + Total(l.burns[..p]) == total
  }

  lemma {:induction false} TotalAppend(b: seq<nat>, x: nat)
    ensures Total(b + [x]) == Total(b) + x
  {
    assert (b + [x])[..|b|] == b;
  }

  lemma TouchKeepsBalances(s: Db, op: Op, n: nat)
    requires Valid(s) && Hot(s) && Enabled(s, op) && n <= |s.journal|
    requires op.Rollback? ==> op.cp >= n
    ensures n <= |Step(s, op).journal| && Step(s, op).journal[..n] == s.journal[..n]
    ensures Base(Step(s, op), n).balances == Base(s, n).balances
  {
    StepBase(s, op, n);
  }

  lemma OldSaved(l: Ledger, r: Ledger, op: Op, total: nat, p: nat)
    requires Valid(l.db) && Hot(l.db) && Enabled(l.db, op) && !op.Rollback? && r.db == Step(l.db, op)
    requires |r.burns| == |r.db.journal| && |l.burns| <= |r.burns| && r.burns[..|l.burns|] == l.burns
    requires p <= |l.db.journal| && SavedTotal(l, p, total)
    ensures SavedTotal(r, p, total)
  {
    TouchKeepsBalances(l.db, op, p);
    assert r.burns[..p] == r.burns[..|l.burns|][..p];
  }

  lemma OtherBurns(l: Ledger, op: Op, total: nat)
    requires Callable(l, Other(op)) && Balanced(l, total) && !op.Rollback?
    ensures var r := Called(l, Other(op));
            && |r.burns| == |r.db.journal| && |l.burns| <= |r.burns| && r.burns[..|l.burns|] == l.burns
            && Total(r.burns) == Total(l.burns) && r.db.view.balances == l.db.view.balances
    ensures SavedTotal(l, |l.db.journal|, total)
  {
    TotalAppend(l.burns, 0);
    assert l.burns[..|l.burns|] == l.burns;
  }

  /** A step that pushes at most one entry and leaves balances alone. */
  lemma OtherBalanced(l: Ledger, op: Op, total: nat)
    requires Callable(l, Other(op)) && Balanced(l, total) && !op.Rollback?
    ensures Balanced(Called(l, Other(op)), total)
  {
    var r := Called(l, Other(op));
    StepHot(l.db, op);
    OtherBurns(l, op, total);
    forall p | 0 <= p < |r.db.journal| && r.db.journal[p].Marker? ensures SavedTotal(r, p, total) {
      if p < |l.db.journal| {
        TouchKeepsBalances(l.db, op, p + 1);
        assert r.db.journal[p] == r.db.journal[..p + 1][p] == l.db.journal[..p + 1][p] == l.db.journal[p];
      }
      OldSaved(l, r, op, total, p);
    }
  }

  lemma RollbackBalanced(l: Ledger, cp: nat, total: nat)
    requires Callable(l, Other(Rollback(cp))) && Balanced(l, total)
    ensures Balanced(Called(l, Other(Rollback(cp))), total)
  {
    var r := Called(l, Other(Rollback(cp)));
    StepHot(l.db, Rollback(cp));
    assert SavedTotal(l, cp, total);
    forall p | 0 <= p < |r.db.journal| && r.db.journal[p].Marker? ensures SavedTotal(r, p, total) {
      assert SavedTotal(l, p, total);
      TouchKeepsBalances(l.db, Rollback(cp), p);
      assert r.burns[..p] == l.burns[..p];
    }
  }

  /** `t` comes after `s` without a rollback, a checkpoint or a cold touch. */
  ghost predicate Extends(s: Db, t: Db) {
    && Valid(s) && Hot(s) && Valid(t) && Hot(t)
    && |s.view.stamps| == |t.view.stamps| && s.counter == t.counter
    && |s.journal| <= |t.journal| && t.journal[..|s.journal|] == s.journal
    && (forall p :: |s.journal| <= p < |t.journal| ==> !t.journal[p].Marker?)
    && (forall p :: 0 <= p <= |s.journal| ==> SameBalances(s, t, p))
  }

  ghost predicate SameBalances(s: Db, t: Db, p: nat) {
    p <= |s.journal| && p <= |t.journal| && Base(t, p).balances == Base(s, p).balances
  }

  lemma StepExtends(s: Db, op: Op)
    requires Valid(s) && Hot(s) && Enabled(s, op)
    requires op.WriteBalance? || op.EmitLog? || op.Destruct?
    ensures Extends(s, After(s, op))
  {
    StepHot(s, op);
    forall p | 0 <= p <= |s.journal| ensures SameBalances(s, After(s, op), p) {
      TouchKeepsBalances(s, op, p);
    }
  }

  lemma ExtendsTrans(s: Db, t: Db, u: Db)
    requires Extends(s, t) && Extends(t, u)
    ensures Extends(s, u)
  {
    assert u.journal[..|s.journal|] == u.journal[..|t.journal|][..|s.journal|];
    forall p | |s.journal| <= p < |u.journal| ensures !u.journal[p].Marker? {
      assert p < |t.journal| ==> u.journal[p] == u.journal[..|t.journal|][p] == t.journal[p];
    }
    forall p | 0 <= p <= |s.journal| ensures SameBalances(s, u, p) {
      assert SameBalances(s, t, p) && SameBalances(t, u, p);
    }
  }

  lemma ExtendBalanced(l: Ledger, db: Db, more: seq<nat>, total: nat)
    requires Balanced(l, total) && Extends(l.db, db)
    requires |l.burns| + |more| == |db.journal|
    requires Total(db.view.balances) + Total(l.burns + more) == total
    ensures Balanced(Ledger(db, l.burns + more), total)
  {
    var r := Ledger(db, l.burns + more);
    forall p | 0 <= p < |db.journal| && db.journal[p].Marker? ensures SavedTotal(r, p, total) {
      assert p < |l.db.journal| && db.journal[p] == db.journal[..|l.db.journal|][p] == l.db.journal[p];
      assert SavedTotal(l, p, total) && SameBalances(l.db, db, p);
      assert r.burns[..p] == l.burns[..p];
    }
  }

  lemma LoggedExtends(s: Db, event: seq<Log>)
    requires Valid(s) && Hot(s) && |event| <= 1
    ensures Extends(s, Logged(s, event))
  {
    if event == [] {
      forall p | 0 <= p <= |s.journal| ensures SameBalances(s, s, p) {}
    } else {
      StepExtends(s, EmitLog(event[0]));
    }
  }

  lemma TwoWrites(s: Db, i: nat, x: nat, j: nat, y: nat, event: seq<Log>)
    requires Valid(s) && Hot(s) && Rows(s, i, j) && i != j && |event| <= 1
    ensures var t := Logged(After(After(s, WriteBalance(i, x)), WriteBalance(j, y)), event);
            && Extends(s, t) && |t.journal| == |s.journal| + 2
            && t.view.balances == s.view.balances[i := x][j := y]
            && Total(t.view.balances) == Total(s.view.balances) - s.view.balances[i] - s.view.balances[j] + x + y
  {
    var t1 := After(s, WriteBalance(i, x));
    StepExtends(s, WriteBalance(i, x));
    var t2 := After(t1, WriteBalance(j, y));
    StepExtends(t1, WriteBalance(j, y));
    ExtendsTrans(s, t1, t2);
    LoggedExtends(t2, event);
    ExtendsTrans(s, t2, Logged(t2, event));
    TotalUpdate(s.view.balances, i, x);
    TotalUpdate(s.view.balances[i := x], j, y);
  }

  lemma ZeroBurns(b: seq<nat>)
    ensures Total(b + [0]) == Total(b) && Total(b + [0, 0]) == Total(b) && Total(b + [0, 0, 0]) == Total(b)
  {
    TotalAppend(b, 0);
    TotalAppend(b + [0], 0);
    assert b + [0, 0] == b + [0] + [0];
    TotalAppend(b + [0, 0], 0);
    assert b + [0, 0, 0] == b + [0, 0] + [0];
  }

  lemma NoWrap(a: nat, b: nat)
    ensures a + b < WORD ==> Add256(a, b) == a + b
    ensures b <= a < WORD ==> Sub256(a, b) == a - b
  {
  }

  lemma AmountsFit(b: seq<nat>, from: nat, to: nat, x: nat)
    requires from < |b| && to < |b| && from != to && x <= b[from] && Total(b) < WORD
    ensures Sub256(b[from], x) == b[from] - x && Add256(b[to], x) == b[to] + x
  {
    TwoRows(b, from, to);
    NoWrap(b[from], x);
    NoWrap(b[to], x);
  }

  /** Two balance writes that keep the sum. */
  lemma PairBalanced(l: Ledger, i: nat, x: nat, j: nat, y: nat, event: seq<Log>, total: nat)
    requires Balanced(l, total) && Rows(l.db, i, j) && i != j && |event| <= 1
    requires x + y == l.db.view.balances[i] + l.db.view.balances[j]
    ensures var t := Logged(After(After(l.db, WriteBalance(i, x)), WriteBalance(j, y)), event);
            && Extends(l.db, t) && |t.journal| == |l.db.journal| + 2
            && t.view.balances == l.db.view.balances[i := x][j := y]
            && Balanced(Ledger(t, l.burns + [0, 0]), total)
  {
    TwoWrites(l.db, i, x, j, y, event);
    ZeroBurns(l.burns);
    var t := Logged(After(After(l.db, WriteBalance(i, x)), WriteBalance(j, y)), event);
    ExtendBalanced(l, t, [0, 0], total);
  }

  /** Moving value neither wraps nor changes the total. */
  lemma MoveBalanced(l: Ledger, c: Call, total: nat)
    requires c.Move? && Callable(l, c) && Balanced(l, total) && total < WORD
    ensures Balanced(Called(l, c), total)
    ensures c.from != c.to ==>
      Called(l, c).db.view.balances == l.db.view.balances[c.from := l.db.view.balances[c.from] - c.amount]
                                                         [c.to := l.db.view.balances[c.to] + c.amount]
  {
    if c.from == c.to {
      assert l.burns + [] == l.burns;
    } else {
      var b := l.db.view.balances;
      AmountsFit(b, c.from, c.to, c.amount);
      PairBalanced(l, c.from, b[c.from] - c.amount, c.to, b[c.to] + c.amount, c.event, total);
    }
  }

  lemma SweepBalanced(l: Ledger, c: Call, total: nat)
    requires c.Destroy? && c.src != c.dst && Callable(l, c) && Balanced(l, total) && total < WORD
    ensures Balanced(Called(l, c), total)
  {
    var t := Swept(l, c, total);
    if c.destroy {
      RegisterBalanced(Ledger(t, l.burns + [0, 0]), c.src, total);
      assert l.burns + [0, 0] + [0] == l.burns + [0, 0, 0];
    }
  }

  /** The state between the sweep and the registration. */
  lemma Swept(l: Ledger, c: Call, total: nat) returns (t: Db)
    requires c.Destroy? && c.src != c.dst && Callable(l, c) && Balanced(l, total) && total < WORD
    ensures Balanced(Ledger(t, l.burns + [0, 0]), total) && c.src < |t.view.stamps|
    ensures Called(l, c) == if c.destroy then Ledger(After(t, Destruct(c.src)), l.burns + [0, 0, 0])
                            else Ledger(t, l.burns + [0, 0])
  {
    var b := l.db.view.balances;
    AmountsFit(b, c.src, c.dst, b[c.src]);
    PairBalanced(l, c.src, 0, c.dst, b[c.dst] + b[c.src], c.event, total);
    t := Logged(After(After(l.db, WriteBalance(c.src, 0)), WriteBalance(c.dst, b[c.dst] + b[c.src])), c.event);
    SweptParts(l, c, t);
  }

  lemma SweptParts(l: Ledger, c: Call, t: Db)
    requires c.Destroy? && c.src != c.dst && Callable(l, c) && Valid(t) && c.src < |t.view.stamps|
    requires var b := l.db.view.balances;
             && Add256(b[c.dst], b[c.src]) == b[c.dst] + b[c.src]
             && t == Logged(After(After(l.db, WriteBalance(c.src, 0)), WriteBalance(c.dst, b[c.dst] + b[c.src])), c.event)
    ensures Called(l, c) == if c.destroy then Ledger(After(t, Destruct(c.src)), l.burns + [0, 0, 0])
                            else Ledger(t, l.burns + [0, 0])
  {
  }

  lemma RegisterBalanced(l: Ledger, i: nat, total: nat)
    requires Balanced(l, total) && i < |l.db.view.stamps|
    ensures Balanced(Ledger(After(l.db, Destruct(i)), l.burns + [0]), total)
  {
    StepExtends(l.db, Destruct(i));
    ZeroBurns(l.burns);
    ExtendBalanced(l, After(l.db, Destruct(i)), [0], total);
  }

  lemma SelfSweepBalanced(l: Ledger, c: Call, total: nat)
    requires c.Destroy? && c.src == c.dst && Callable(l, c) && Balanced(l, total)
    ensures Balanced(Called(l, c), total)
  {
    assert l.burns + [] == l.burns;
    if c.destroy {
      if c.burn {
        var b := l.db.view.balances;
        var t := After(l.db, WriteBalance(c.src, 0));
        StepExtends(l.db, WriteBalance(c.src, 0));
        StepExtends(t, Destruct(c.src));
        ExtendsTrans(l.db, t, After(t, Destruct(c.src)));
        TotalUpdate(b, c.src, 0);
        TotalAppend(l.burns, b[c.src]);
        TotalAppend(l.burns + [b[c.src]], 0);
        assert l.burns + [b[c.src], 0] == l.burns + [b[c.src]] + [0];
        ExtendBalanced(l, After(t, Destruct(c.src)), [b[c.src], 0], total);
      } else {
        StepExtends(l.db, Destruct(c.src));
        ZeroBurns(l.burns);
        ExtendBalanced(l, After(l.db, Destruct(c.src)), [0], total);
      }
    }
  }

  lemma CallBalanced(l: Ledger, c: Call, total: nat)
    requires Callable(l, c) && Balanced(l, total) && total < WORD
    ensures Balanced(Called(l, c), total)
  {
    match c
    case Move(_, _, _, _) => MoveBalanced(l, c, total);
    case Destroy(i, j, _, _, _) => if i == j { SelfSweepBalanced(l, c, total); } else { SweepBalanced(l, c, total); }
    case Other(op) => if op.Rollback? { RollbackBalanced(l, op.cp, total); } else { OtherBalanced(l, op, total); }
  }

  // ----- whole executions ------------------------------------------------------------------------

  ghost predicate Execution(l: Ledger, cs: seq<Call>)
    decreases |cs|
  {
    cs == [] || (Callable(l, cs[0]) && Execution(Called(l, cs[0]), cs[1..]))
  }

  ghost function Executed(l: Ledger, cs: seq<Call>): (r: Ledger)
    requires Valid(l.db) && Execution(l, cs)
    ensures Valid(r.db) && |r.db.view.stamps| == |l.db.view.stamps|
    decreases |cs|
  {
    if cs == [] then l else Executed(Called(l, cs[0]), cs[1..])
  }

  /** Any sequence of transfers, self-destructs, frames and reverts keeps the ether
      held plus the ether burned by calls that were not reverted. */
  lemma {:induction false} ExecutionBalanced(l: Ledger, cs: seq<Call>, total: nat)
    requires Execution(l, cs) && Balanced(l, total) && total < WORD
    ensures Balanced(Executed(l, cs), total)
    decreases |cs|
  {
    if cs != [] {
      CallBalanced(l, cs[0], total);
      ExecutionBalanced(Called(l, cs[0]), cs[1..], total);
    }
  }
}
