/** Fees of one transaction: the up-front check, the debit, the settlement, and what
    the whole transaction takes out of the total. */
module Fees {
  import opened Basics
  import opened Journal
  import opened Warmth
  import opened StateDatabase
  import opened Ether

  const GAS_PER_BLOB := 131072

  function Mul256(a: nat, b: nat): nat { (a * b) % WORD }

  /** The fee fields of a transaction and of its block. */
  datatype Fee = Fee(
    legacy: bool, gasLimit: nat, gasPrice: nat, maxFee: nat, maxPriority: nat, value: nat,
    blobs: nat, maxBlobFee: nat, baseFee: nat, blobBaseFee: nat)

  predicate Words(f: Fee) {
    && f.gasPrice < WORD && f.maxFee < WORD && f.maxPriority < WORD && f.value < WORD
    && f.maxBlobFee < WORD && f.baseFee < WORD && f.blobBaseFee < WORD
  }

  function FeeCap(f: Fee): nat { if f.legacy then f.gasPrice else f.maxFee }
  function BlobGas(f: Fee): nat { f.blobs * GAS_PER_BLOB }

  /** The price as computed before the checks, with the sum wrapping. */
  function Price(f: Fee): nat {
    if f.legacy then f.gasPrice
    else
      var sum := Add256(f.baseFee, f.maxPriority);
      if sum < f.maxFee then sum else f.maxFee
  }

  /** The 512-bit maximum cost. */
  function MaxCost(f: Fee): nat {
    f.gasLimit * FeeCap(f) + (if f.blobs == 0 then 0 else BlobGas(f) * f.maxBlobFee) + f.value
  }

  /** The fee checks of `check_transaction`. */
  predicate Affordable(f: Fee, balance: nat) {
    && (f.legacy || f.maxPriority <= FeeCap(f))
    && f.baseFee <= FeeCap(f)
    && (f.blobs != 0 ==> f.blobBaseFee <= f.maxBlobFee)
    && MaxCost(f) <= balance
  }

  function Upfront(f: Fee): nat {
    var gas := Mul256(f.gasLimit, Price(f));
    if f.blobs == 0 then gas else Add256(gas, Mul256(BlobGas(f), f.blobBaseFee))
  }

  lemma MulMonotone(a: nat, x: nat, y: nat)
    requires x <= y
    ensures a * x <= a * y
  {
  }

  lemma ProductFits(a: nat, b: nat)
    requires a * b < WORD
    ensures Mul256(a, b) == a * b
  {
  }

  /** The price sum does not wrap once the checks pass, so the price is the EIP-1559 one. */
  lemma PriceFits(f: Fee, balance: nat)
    requires Words(f) && Affordable(f, balance) && balance < WORD && f.gasLimit >= 2
    ensures !f.legacy ==> f.baseFee + f.maxPriority < WORD
    ensures !f.legacy ==> Price(f) == if f.baseFee + f.maxPriority < f.maxFee then f.baseFee + f.maxPriority else f.maxFee
    ensures f.legacy ==> Price(f) == f.gasPrice
    ensures f.baseFee <= Price(f) <= FeeCap(f)
  {
    MulMonotone(FeeCap(f), 2, f.gasLimit);
    assert 2 * FeeCap(f) <= balance;
    if !f.legacy {
      NoWrap(f.baseFee, f.maxPriority);
    }
  }

  /** The up-front debit does not wrap and leaves the value to transfer. */
  lemma UpfrontFits(f: Fee, balance: nat)
    requires Words(f) && Affordable(f, balance) && balance < WORD && f.gasLimit >= 2
    ensures Upfront(f) == f.gasLimit * Price(f) + BlobGas(f) * f.blobBaseFee || f.blobs == 0
    ensures f.blobs == 0 ==> Upfront(f) == f.gasLimit * Price(f)
    ensures Upfront(f) + f.value <= balance
    ensures Sub256(balance, Upfront(f)) == balance - Upfront(f)
  {
    PriceFits(f, balance);
    MulMonotone(f.gasLimit, Price(f), FeeCap(f));
    ProductFits(f.gasLimit, Price(f));
    if f.blobs != 0 {
      MulMonotone(BlobGas(f), f.blobBaseFee, f.maxBlobFee);
      ProductFits(BlobGas(f), f.blobBaseFee);
      NoWrap(f.gasLimit * Price(f), BlobGas(f) * f.blobBaseFee);
    }
    NoWrap(balance, Upfront(f));
  }

  // ----- debit and settlement --------------------------------------------------------------------

  function WithBalance(s: Db, i: nat, x: nat): Db
    requires i < |s.view.balances| && i < |s.view.stamps|
  {
    s.(view := s.view.(balances := s.view.balances[i := x], stamps := s.view.stamps[i := s.counter]))
  }

  function WithNonce(s: Db, i: nat, x: nat): Db
    requires i < |s.view.nonces| && i < |s.view.stamps|
  {
    s.(view := s.view.(nonces := s.view.nonces[i := x], stamps := s.view.stamps[i := s.counter]))
  }

  /** Nonce bump and debit, outside the journal. */
  ghost function Debited(s: Db, sender: nat, f: Fee): (r: Db)
    requires Valid(s) && sender < |s.view.stamps|
    ensures Valid(r) && |r.view.stamps| == |s.view.stamps|
  {
    WithBalance(WithNonce(s, sender, s.view.nonces[sender] + 1), sender, Sub256(s.view.balances[sender], Upfront(f)))
  }

  /** The sender gets back the unused gas, then the coinbase the priority fee. */
  function Settled(s: Db, sender: nat, coinbase: nat, f: Fee, gasUsed: nat): Db
    requires sender < |s.view.stamps| && coinbase < |s.view.stamps| && ViewOk(s.view, s.counter) && gasUsed <= f.gasLimit
  {
    var price := Price(f);
    var priority := if price > f.baseFee then price - f.baseFee else 0;
    var t := WithBalance(s, sender, Add256(s.view.balances[sender], Mul256(f.gasLimit - gasUsed, price)));
    WithBalance(t, coinbase, Add256(t.view.balances[coinbase], Mul256(gasUsed, priority)))
  }

  /** `c` is `b` with `x` more in row `i` and `y` more in row `j`, which may be the same. */
  predicate Paid(b: seq<nat>, c: seq<nat>, i: nat, x: int, j: nat, y: int) {
    |c| == |b| && forall k :: 0 <= k < |b| ==> c[k] == b[k] + (if k == i then x else 0) + (if k == j then y else 0)
  }

  /** No balance in the two rows reaches 2^256. */
  predicate RoomFor(b: seq<nat>, i: nat, x: int, j: nat, y: int) {
    && i < |b| && j < |b|
    && b[i] + x < WORD && b[j] + y < WORD && (i == j ==> b[i] + x + y < WORD)
  }

  /** Who is paid: the sender the unused gas at the full price, the coinbase the priority
      part of the gas used, and nobody else anything. */
  lemma SettledRows(s: Db, sender: nat, coinbase: nat, f: Fee, gasUsed: nat, x: int, y: int)
    requires sender < |s.view.stamps| && coinbase < |s.view.stamps| && ViewOk(s.view, s.counter) && gasUsed <= f.gasLimit
    requires x == (f.gasLimit - gasUsed) * Price(f)
    requires y == if Price(f) > f.baseFee then gasUsed * (Price(f) - f.baseFee) else 0
    requires RoomFor(s.view.balances, sender, x, coinbase, y)
    ensures var v, w := s.view, Settled(s, sender, coinbase, f, gasUsed).view;
            && Paid(v.balances, w.balances, sender, x, coinbase, y)
            && w == v.(balances := w.balances, stamps := w.stamps)
  {
    ProductFits(f.gasLimit - gasUsed, Price(f));
    if Price(f) > f.baseFee { ProductFits(gasUsed, Price(f) - f.baseFee); }
    var priority := if Price(f) > f.baseFee then Price(f) - f.baseFee else 0;
    var u, v := Mul256(f.gasLimit - gasUsed, Price(f)), Mul256(gasUsed, priority);
    assert u == x && v == y;
    CreditedRows(s, sender, coinbase, u, v);
  }

  lemma CreditedRows(s: Db, i: nat, j: nat, x: nat, y: nat)
    requires i < |s.view.stamps| && j < |s.view.stamps| && ViewOk(s.view, s.counter)
    requires RoomFor(s.view.balances, i, x, j, y)
    ensures var b := s.view.balances;
            var t := WithBalance(s, i, Add256(b[i], x));
            && j < |t.view.balances| && j < |t.view.stamps|
            && var u := WithBalance(t, j, Add256(t.view.balances[j], y));
               Paid(b, u.view.balances, i, x, j, y) &&
               u.view == s.view.(balances := u.view.balances, stamps := u.view.stamps)
  {
    var b := s.view.balances;
    NoWrap(b[i], x);
    NoWrap(b[j], y);
    NoWrap(b[i] + x, y);
  }

  /** Who pays: the sender alone, the whole gas limit at the price and the blobs, and its
      nonce goes up by one. */
  lemma DebitedRows(s: Db, sender: nat, f: Fee)
    requires Valid(s) && sender < |s.view.stamps| && s.view.balances[sender] < WORD
    requires Words(f) && f.gasLimit >= 2 && Affordable(f, s.view.balances[sender])
    ensures var v, w, cost := s.view, Debited(s, sender, f).view, f.gasLimit * Price(f) + f.blobs * 131072 * f.blobBaseFee;
            && cost + f.value <= v.balances[sender]
            && w.balances == v.balances[sender := v.balances[sender] - cost]
            && w.nonces == v.nonces[sender := v.nonces[sender] + 1]
            && w == v.(balances := w.balances, nonces := w.nonces, stamps := w.stamps)
  {
    UpfrontFits(f, s.view.balances[sender]);
  }

  method PreEvmAccounting(db: StateDb, sender: nat, f: Fee) returns (ok: bool)
    requires db.Ok() && sender < |db.accounts|
    modifies db`accounts
    ensures db.Shape()
    ensures ok <==> Affordable(f, old(db.Observed()).balances[sender])
    ensures var cap := if f.legacy then f.gasPrice else f.maxFee;
            ok <==> && (f.legacy || f.maxPriority <= cap) && f.baseFee <= cap
                    && (f.blobs > 0 ==> f.blobBaseFee <= f.maxBlobFee)
                    && f.gasLimit * cap + f.blobs * 131072 * f.maxBlobFee + f.value <= old(db.Observed()).balances[sender]
    ensures ok ==> db.State() == Debited(old(db.State()), sender, f)
    ensures !ok ==> db.State() == old(db.State())
  {
    var balance := BalanceOf(db.accountOriginals[sender], db.accounts[sender]);
    if !Affordable(f, balance) { return false; }
    var nonce := NonceOf(db.accountOriginals[sender], db.accounts[sender]);
    db.SetNonceAt(sender, nonce + 1, db.counter);
    db.SetBalanceAt(sender, Sub256(balance, Upfront(f)), db.counter);
    ok := true;
  }

  method SettleFees(db: StateDb, sender: nat, coinbase: nat, f: Fee, gasUsed: nat)
    requires db.Ok() && sender < |db.accounts| && coinbase < |db.accounts| && gasUsed <= f.gasLimit
    modifies db`accounts
    ensures db.Shape()
    ensures db.State() == Settled(old(db.State()), sender, coinbase, f, gasUsed)
    ensures var x, y := (f.gasLimit - gasUsed) * Price(f), if Price(f) > f.baseFee then gasUsed * (Price(f) - f.baseFee) else 0;
            RoomFor(old(db.Observed()).balances, sender, x, coinbase, y) ==>
              Paid(old(db.Observed()).balances, db.Observed().balances, sender, x, coinbase, y)
  {
    ghost var s := db.State();
    var price := Price(f);
    var credit := Mul256(f.gasLimit - gasUsed, price);
    db.SetBalanceAt(sender, Add256(BalanceOf(db.accountOriginals[sender], db.accounts[sender]), credit), db.counter);
    var priority := if price > f.baseFee then price - f.baseFee else 0;
    var fee := Mul256(gasUsed, priority);
    db.SetBalanceAt(coinbase, Add256(BalanceOf(db.accountOriginals[coinbase], db.accounts[coinbase]), fee), db.counter);
    SettledPays(s, sender, coinbase, f, gasUsed);
  }

  lemma SettledPays(s: Db, sender: nat, coinbase: nat, f: Fee, gasUsed: nat)
    requires sender < |s.view.stamps| && coinbase < |s.view.stamps| && ViewOk(s.view, s.counter) && gasUsed <= f.gasLimit
    ensures var x, y := (f.gasLimit - gasUsed) * Price(f), if Price(f) > f.baseFee then gasUsed * (Price(f) - f.baseFee) else 0;
            RoomFor(s.view.balances, sender, x, coinbase, y) ==>
              Paid(s.view.balances, Settled(s, sender, coinbase, f, gasUsed).view.balances, sender, x, coinbase, y)
  {
    var x, y := (f.gasLimit - gasUsed) * Price(f), if Price(f) > f.baseFee then gasUsed * (Price(f) - f.baseFee) else 0;
    if RoomFor(s.view.balances, sender, x, coinbase, y) { SettledRows(s, sender, coinbase, f, gasUsed, x, y); }
  }

  // ----- the whole transaction -----------------------------------------------------------------------

  function BlobFee(f: Fee): nat { if f.blobs == 0 then 0 else BlobGas(f) * f.blobBaseFee }

  /** After the debit, execution starts from a balanced ledger that can pay the value. */
  lemma DebitBalanced(s: Db, sender: nat, f: Fee, total: nat)
    requires Valid(s) && s.journal == [] && sender < |s.view.stamps|
    requires Total(s.view.balances) == total < WORD
    requires Words(f) && f.gasLimit >= 2 && Affordable(f, s.view.balances[sender])
    ensures var t := Debited(s, sender, f);
            && Upfront(f) == f.gasLimit * Price(f) + BlobFee(f) <= total
            && f.value <= t.view.balances[sender]
            && Balanced(Ledger(t, []), total - Upfront(f))
  {
    var b := s.view.balances;
    TotalUpdate(b, sender, b[sender]);
    UpfrontFits(f, b[sender]);
    TotalUpdate(b, sender, b[sender] - Upfront(f));
    var t := Debited(s, sender, f);
    assert t.view.balances == b[sender := b[sender] - Upfront(f)];
    assert Total([]) == 0;
  }

  /** The two credits of settlement add up to the debit less the burned base fee. */
  lemma CreditsOfDebit(limit: nat, price: nat, base: nat, used: nat) returns (x: nat, y: nat)
    requires used <= limit && base <= price
    ensures x == (limit - used) * price && y == used * (price - base)
    ensures x + y == limit * price - used * base
    ensures x + y <= limit * price
  {
    x, y := (limit - used) * price, used * (price - base);
    assert (limit - used) * price == limit * price - used * price;
    assert used * (price - base) == used * price - used * base;
    assert used * base >= 0;
  }

  lemma CreditFits(s: Db, i: nat, a: nat, x: nat)
    requires ViewOk(s.view, s.counter) && i < |s.view.stamps|
    requires Total(s.view.balances) + a * x < WORD
    ensures var t := WithBalance(s, i, Add256(s.view.balances[i], Mul256(a, x)));
            && ViewOk(t.view, s.counter) && t.counter == s.counter
            && |t.view.stamps| == |s.view.stamps|
            && t.view.balances == s.view.balances[i := s.view.balances[i] + a * x]
            && Total(t.view.balances) == Total(s.view.balances) + a * x
  {
    TotalUpdate(s.view.balances, i, s.view.balances[i] + a * x);
    ProductFits(a, x);
    NoWrap(s.view.balances[i], a * x);
  }

  /** Settlement neither wraps nor loses anything but the base fee, also when the
      sender is the coinbase. */
  lemma SettlementBalanced(s: Db, sender: nat, coinbase: nat, f: Fee, gasUsed: nat)
    requires Valid(s) && sender < |s.view.stamps| && coinbase < |s.view.stamps| && gasUsed <= f.gasLimit
    requires f.baseFee <= Price(f) && Total(s.view.balances) + f.gasLimit * Price(f) < WORD
    ensures Total(Settled(s, sender, coinbase, f, gasUsed).view.balances) ==
            Total(s.view.balances) + f.gasLimit * Price(f) - gasUsed * f.baseFee
  {
    var price := Price(f);
    var x, y := CreditsOfDebit(f.gasLimit, price, f.baseFee, gasUsed);
    SettledTotal(s, sender, coinbase, f, gasUsed, x, y);
  }

  lemma SettledTotal(s: Db, sender: nat, coinbase: nat, f: Fee, gasUsed: nat, x: nat, y: nat)
    requires Valid(s) && sender < |s.view.stamps| && coinbase < |s.view.stamps| && gasUsed <= f.gasLimit
    requires f.baseFee <= Price(f) && Total(s.view.balances) + x + y < WORD
    requires x == (f.gasLimit - gasUsed) * Price(f) && y == gasUsed * (Price(f) - f.baseFee)
    ensures Total(Settled(s, sender, coinbase, f, gasUsed).view.balances) == Total(s.view.balances) + x + y
  {
    TwoCredits(s, sender, coinbase, f.gasLimit - gasUsed, Price(f), gasUsed, Price(f) - f.baseFee, x, y);
  }

  lemma TwoCredits(s: Db, i: nat, j: nat, a: nat, p: nat, b: nat, q: nat, x: nat, y: nat)
    requires ViewOk(s.view, s.counter) && i < |s.view.stamps| && j < |s.view.stamps|
    requires x == a * p && y == b * q && Total(s.view.balances) + x + y < WORD
    ensures var t := WithBalance(s, i, Add256(s.view.balances[i], Mul256(a, p)));
            && j < |t.view.balances| && j < |t.view.stamps|
            && Total(WithBalance(t, j, Add256(t.view.balances[j], Mul256(b, q))).view.balances) ==
               Total(s.view.balances) + x + y
  {
    CreditFits(s, i, a, p);
    CreditFits(WithBalance(s, i, Add256(s.view.balances[i], Mul256(a, p))), j, b, q);
  }

  /** Within the total supply the two credits fit their rows. */
  lemma SettlementPays(s: Db, sender: nat, coinbase: nat, f: Fee, gasUsed: nat)
    requires Valid(s) && sender < |s.view.stamps| && coinbase < |s.view.stamps| && gasUsed <= f.gasLimit
    requires f.baseFee <= Price(f) && Total(s.view.balances) + f.gasLimit * Price(f) < WORD
    ensures Paid(s.view.balances, Settled(s, sender, coinbase, f, gasUsed).view.balances,
                 sender, (f.gasLimit - gasUsed) * Price(f), coinbase, gasUsed * (Price(f) - f.baseFee))
  {
    var x, y := CreditsOfDebit(f.gasLimit, Price(f), f.baseFee, gasUsed);
    var b := s.view.balances;
    TotalUpdate(b, sender, b[sender]);
    TotalUpdate(b, coinbase, b[coinbase]);
    NoPriority(gasUsed, Price(f), f.baseFee);
    SettledRows(s, sender, coinbase, f, gasUsed, x, y);
  }

  lemma NoPriority(used: nat, price: nat, base: nat)
    ensures price == base ==> used * (price - base) == 0
  {
  }

  /** What the accounts in `gone` hold. */
  ghost function HeldBy(b: seq<nat>, gone: set<nat>): nat {
    if b == [] then 0
    else HeldBy(b[..|b| - 1], gone) + if |b| - 1 in gone then b[|b| - 1] else 0
  }

  lemma {:induction false} BurnedAtEnd(b: seq<nat>, c: seq<nat>, gone: set<nat>)
    requires |b| == |c| && forall i :: 0 <= i < |b| ==> c[i] == if i in gone then 0 else b[i]
    ensures Total(c) == Total(b) - HeldBy(b, gone)
    decreases |b|
  {
    if b != [] {
      BurnedAtEnd(b[..|b| - 1], c[..|c| - 1], gone);
    }
  }

  lemma SameTotal(b: seq<nat>, c: seq<nat>)
    requires |b| == |c| && forall i :: 0 <= i < |b| ==> c[i] == b[i]
    ensures Total(c) == Total(b)
  {
    assert b == c;
  }

  /** Ether over a whole transaction: up-front debit, any execution, settlement and the
      deferred destructions take out of the total exactly the base fee of the gas used,
      the blob fee, and what self-destructs burned without being reverted. */
  lemma TransactionConserves(s: Db, sender: nat, coinbase: nat, f: Fee, calls: seq<Call>, gasUsed: nat,
                             tables: Tables, rules: Rules, end: View)
    requires Valid(s) && s.journal == [] && sender < |s.view.stamps| && coinbase < |s.view.stamps|
    requires Total(s.view.balances) < WORD
    requires Words(f) && f.gasLimit >= 2 && Affordable(f, s.view.balances[sender]) && gasUsed <= f.gasLimit
    requires Execution(Ledger(Debited(s, sender, f), []), calls)
    requires var l := Executed(Ledger(Debited(s, sender, f), []), calls);
             Destroyed(Settled(l.db, sender, coinbase, f, gasUsed).view, end, tables, l.db.view.pending, rules)
    ensures var l := Executed(Ledger(Debited(s, sender, f), []), calls);
            var settled := Settled(l.db, sender, coinbase, f, gasUsed).view;
            var late := if rules.amsterdam then 0 else HeldBy(settled.balances, l.db.view.pending);
            && Paid(l.db.view.balances, settled.balances, sender, (f.gasLimit - gasUsed) * Price(f),
                    coinbase, gasUsed * (Price(f) - f.baseFee))
            && Total(end.balances) + gasUsed * f.baseFee + BlobFee(f) + Total(l.burns) + late == Total(s.view.balances)
  {
    var total := Total(s.view.balances);
    DebitBalanced(s, sender, f, total);
    var start := Ledger(Debited(s, sender, f), []);
    ExecutionBalanced(start, calls, total - Upfront(f));
    var l := Executed(start, calls);
    TotalUpdate(s.view.balances, sender, s.view.balances[sender]);
    PriceFits(f, s.view.balances[sender]);
    SettlementBalanced(l.db, sender, coinbase, f, gasUsed);
    SettlementPays(l.db, sender, coinbase, f, gasUsed);
    var settled := Settled(l.db, sender, coinbase, f, gasUsed).view;
    if rules.amsterdam {
      SameTotal(settled.balances, end.balances);
    } else {
      BurnedAtEnd(settled.balances, end.balances, l.db.view.pending);
    }
  }
}
