/** Block gas accounting: admission, settlement and the counters between them. */
module Gas {
  import opened Basics

  const I64 := 0x8000_0000_0000_0000
  const MAX_TX_GAS := 0x100_0000
  const MAX_TX_TOTAL_GAS := 0xFFFF_FFFF

  /** Unsigned 64-bit arithmetic. */
  function Add64(a: nat, b: nat): nat { (a + b) % U64 }
  function Sub64(a: nat, b: nat): nat { (a - b) % U64 }

  function Min(a: int, b: int): int { if a < b then a else b }
  function Max(a: int, b: int): int { if a < b then b else a }

  datatype Fork = Fork(london: bool, prague: bool, osaka: bool, amsterdam: bool)

  predicate Ordered(f: Fork) {
    (f.amsterdam ==> f.osaka) && (f.osaka ==> f.prague) && (f.prague ==> f.london)
  }

  /** What a transaction must at least pay: its intrinsic gas and the calldata floor. */
  datatype Cost = Cost(intrinsic: nat, floor: nat)

  /** Gas above the per-transaction cap is the state-gas reservoir (EIP-8037). */
  function StateLimit(f: Fork, gasLimit: nat): nat {
    if f.amsterdam && gasLimit > MAX_TX_GAS then gasLimit - MAX_TX_GAS else 0
  }

  /** The most a transaction can take of the block's regular gas. */
  function RegularLimit(f: Fork, gasLimit: nat): nat {
    gasLimit - StateLimit(f, gasLimit)
  }

  /** What execution hands back. */
  datatype Outcome = Outcome(gasLeft: int, stateLeft: int, spilled: int, refund: int)

  /** The execution engine's side: no gas appears from nowhere, and state gas that
      spilled into regular gas was taken from it. */
  predicate GasContract(f: Fork, gasLimit: nat, c: Cost, r: Outcome) {
    && 0 <= r.gasLeft && 0 <= r.stateLeft && 0 <= r.spilled && 0 <= r.refund < I64 / 2
    && c.intrinsic + r.gasLeft + r.spilled <= RegularLimit(f, gasLimit)
    && c.intrinsic + r.gasLeft + r.stateLeft <= gasLimit
    && (!f.amsterdam ==> r.stateLeft == 0 && r.spilled == 0)
  }

  datatype Used = Used(gas: nat, regular: nat, state: nat)

  /** The transaction fits the caps and what the block has left. */
  predicate Admissible(f: Fork, limit: nat, cumulative: nat, regular: nat, state: nat, gasLimit: nat, c: Cost) {
    && c.intrinsic <= RegularLimit(f, gasLimit)
    && (f.prague ==> c.floor <= RegularLimit(f, gasLimit))
    && (f.amsterdam ==> gasLimit <= MAX_TX_TOTAL_GAS)
    && (f.osaka && !f.amsterdam ==> gasLimit <= MAX_TX_GAS)
    && (f.amsterdam ==> regular + RegularLimit(f, gasLimit) <= limit && state + gasLimit <= limit)
    && (!f.amsterdam ==> cumulative + gasLimit <= limit)
  }

  /** Gas charged to the sender: after the capped refund, but not below the floor. */
  function GasCharged(f: Fork, gasLimit: nat, c: Cost, r: Outcome, authRefund: nat): int {
    var spent := gasLimit - r.gasLeft - r.stateLeft;
    var refund := Min(r.refund + authRefund, spent / (if f.london then 5 else 2));
    if f.prague then Max(spent - refund, c.floor) else spent - refund
  }

  /** The refund of `wanted` gas that `spent` allows: a fifth of it, half of it before
      London (EIP-3529), or all that was asked. */
  predicate Granted(f: Fork, spent: int, wanted: nat, refund: int) {
    var parts := if f.london then 5 else 2;
    && 0 <= refund <= wanted && parts * refund <= spent
    && (refund < wanted ==> parts * (refund + 1) > spent)
  }

  /** There is exactly one such refund. */
  lemma GrantedUnique(f: Fork, spent: int, wanted: nat, x: int, y: int)
    requires Granted(f, spent, wanted, x) && Granted(f, spent, wanted, y)
    ensures x == y
  {
  }

  /** The charge: spent gas less the granted refund, raised to the floor from Prague on
      (EIP-7623). */
  predicate ChargeIs(f: Fork, spent: int, refund: int, floor: nat, charge: int) {
    && charge >= spent - refund && (f.prague ==> charge >= floor)
    && (charge == spent - refund || (f.prague && charge == floor))
  }

  /** The block's two shares on Amsterdam: state gas is the reservoir consumed plus what
      spilled; regular gas is the rest of what was spent, before any refund and not below
      the floor. */
  predicate SharesAre(spent: int, reservoir: nat, floor: nat, r: Outcome, used: Used) {
    && (used.state + r.stateLeft == reservoir + r.spilled || (used.state == 0 && r.stateLeft > reservoir + r.spilled))
    && used.regular + used.state >= spent && used.regular >= floor
    && (used.regular + used.state == spent || used.regular == floor)
  }

  /** What `GasCharged` means. */
  lemma ChargeLaw(f: Fork, gasLimit: nat, c: Cost, r: Outcome, authRefund: nat) returns (refund: int)
    requires Ordered(f) && 0 <= r.gasLeft && 0 <= r.stateLeft && 0 <= r.refund && r.gasLeft + r.stateLeft <= gasLimit
    ensures var spent := gasLimit - r.gasLeft - r.stateLeft;
            && Granted(f, spent, r.refund + authRefund, refund)
            && ChargeIs(f, spent, refund, c.floor, GasCharged(f, gasLimit, c, r, authRefund))
  {
    var spent := gasLimit - r.gasLeft - r.stateLeft;
    refund := Min(r.refund + authRefund, spent / (if f.london then 5 else 2));
  }

  datatype Execution = Execution(gasLimit: nat, cost: Cost, outcome: Outcome, authRefund: nat)

  class GasMeter {
    const limit: nat
    const fork: Fork
    var cumulative: nat
    var regular: nat
    var state: nat
    var floor: nat
    var stateLimit: nat

    constructor (limit: nat, fork: Fork)
      requires limit < I64 && Ordered(fork)
      ensures Within() && this.limit == limit && this.fork == fork && cumulative == 0
    {
      this.limit, this.fork := limit, fork;
      cumulative, regular, state, floor, stateLimit := 0, 0, 0, 0, 0;
    }

    /** Every counter is within the block's limit; the receipts' counter never
        exceeds the two dimensions together. */
    predicate Within()
      reads this
    {
      && limit < I64 && Ordered(fork)
      && regular <= limit && state <= limit
      && cumulative <= regular + state
      && (!fork.amsterdam ==> cumulative == regular && state == 0)
    }

    /** Admission; the unsigned subtractions never wrap because the counters are
        within the limit. */
    method Admit(gasLimit: nat, c: Cost) returns (ok: bool)
      requires Within() && gasLimit < U64 && c.intrinsic < I64 && c.floor < I64
      modifies this`floor, this`stateLimit
      ensures ok <==> Admissible(fork, limit, cumulative, regular, state, gasLimit, c)
      ensures ok <==>
        && c.intrinsic <= (if fork.amsterdam then Min(gasLimit, 0x100_0000) else gasLimit)
        && (fork.prague ==> c.floor <= if fork.amsterdam then Min(gasLimit, 0x100_0000) else gasLimit)
        && (if fork.amsterdam then gasLimit <= 0xFFFF_FFFF && Min(gasLimit, 0x100_0000) <= limit - regular && gasLimit <= limit - state
            else (fork.osaka ==> gasLimit <= 0x100_0000) && gasLimit <= limit - cumulative)
      ensures ok ==> floor == c.floor && stateLimit == StateLimit(fork, gasLimit)
      ensures ok ==> stateLimit == if fork.amsterdam then Max(gasLimit - MAX_TX_GAS, 0) else 0
    {
      floor := c.floor;
      var least := if fork.prague then Max(c.intrinsic, c.floor) else c.intrinsic;
      var reservoir := if fork.amsterdam && gasLimit > MAX_TX_GAS then gasLimit - MAX_TX_GAS else 0;
      if Sub64(gasLimit, reservoir) < least { return false; }
      if if fork.amsterdam then gasLimit > MAX_TX_TOTAL_GAS else fork.osaka && gasLimit > MAX_TX_GAS {
        return false;
      }
      if fork.amsterdam {
        if Min(gasLimit, MAX_TX_GAS) > Sub64(limit, regular) || gasLimit > Sub64(limit, state) { return false; }
      } else if gasLimit > Sub64(limit, cumulative) {
        return false;
      }
      stateLimit := reservoir;
      ok := true;
    }

    /** Settlement of an admitted transaction: the sender's gas, and the shares of the
        two block dimensions, each at most what admission reserved there. */
    method Settle(gasLimit: nat, c: Cost, r: Outcome, authRefund: nat) returns (used: Used, ghost granted: int)
      requires Within() && Admissible(fork, limit, cumulative, regular, state, gasLimit, c)
      requires floor == c.floor && stateLimit == StateLimit(fork, gasLimit)
      requires GasContract(fork, gasLimit, c, r) && authRefund < I64 / 2
      ensures used.gas == GasCharged(fork, gasLimit, c, r, authRefund) <= gasLimit
      ensures Granted(fork, gasLimit - r.gasLeft - r.stateLeft, r.refund + authRefund, granted)
      ensures ChargeIs(fork, gasLimit - r.gasLeft - r.stateLeft, granted, c.floor, used.gas)
      ensures fork.amsterdam ==>
        SharesAre(gasLimit - r.gasLeft - r.stateLeft, Max(gasLimit - MAX_TX_GAS, 0), c.floor, r, used)
      ensures !fork.amsterdam ==> used.regular == used.gas && used.state == 0
      ensures fork.amsterdam ==> used.regular <= RegularLimit(fork, gasLimit) && used.state <= gasLimit
      ensures fork.amsterdam ==> used.regular >= floor
      ensures fork.amsterdam ==> used.regular + used.state >= gasLimit - r.gasLeft - r.stateLeft
      ensures used.gas <= used.regular + used.state
    {
      var gasUsed;
      gasUsed, granted := Charge(gasLimit, r, authRefund);
      used := Used(gasUsed, gasUsed, 0);
      if fork.amsterdam {
        var stateUsed := Max(0, stateLimit - r.stateLeft + r.spilled);
        used := Used(gasUsed, Max(gasLimit - (r.gasLeft + r.stateLeft) - stateUsed, floor), stateUsed);
      }
    }

    /** The sender's side: refund, then floor. */
    method Charge(gasLimit: nat, r: Outcome, authRefund: nat) returns (gasUsed: nat, ghost granted: int)
      requires 0 <= r.gasLeft && 0 <= r.stateLeft && 0 <= r.refund && r.gasLeft + r.stateLeft <= gasLimit
      ensures forall c: Cost :: c.floor == floor ==> gasUsed == GasCharged(fork, gasLimit, c, r, authRefund)
      ensures Granted(fork, gasLimit - r.gasLeft - r.stateLeft, r.refund + authRefund, granted)
      ensures ChargeIs(fork, gasLimit - r.gasLeft - r.stateLeft, granted, floor, gasUsed)
    {
      var gasLeft := r.gasLeft + r.stateLeft;
      var spent := gasLimit - gasLeft;
      var maxRefund := spent / (if fork.london then 5 else 2);
      var wanted := r.refund + authRefund;
      var refund := if wanted < maxRefund then wanted else maxRefund;
      granted := refund;
      var remaining := gasLeft + refund;
      gasUsed := gasLimit - remaining;
      if fork.prague && gasUsed < floor { gasUsed := floor; }
    }

    /** The receipt's counters; none of the additions wraps. */
    method Finalize(gasLimit: nat, c: Cost, used: Used)
      requires Within() && Admissible(fork, limit, cumulative, regular, state, gasLimit, c)
      requires used.gas <= used.regular + used.state
      requires !fork.amsterdam ==> used.gas <= gasLimit && used.regular == used.gas && used.state == 0
      requires fork.amsterdam ==> used.regular <= RegularLimit(fork, gasLimit) && used.state <= gasLimit
      modifies this`cumulative, this`regular, this`state
      ensures Within()
      ensures cumulative == old(cumulative) + used.gas
      ensures regular == old(regular) + used.regular && state == old(state) + used.state
    {
      cumulative := Add64(cumulative, used.gas);
      regular := Add64(regular, used.regular);
      state := Add64(state, used.state);
    }

    /** A whole block of executions, stopping at the first one that is not admitted:
        the counters stay within the limit at every point, whatever execution returns. */
    method ProcessAll(txs: seq<Execution>) returns (done: nat)
      requires Within()
      requires forall i :: 0 <= i < |txs| ==>
        && txs[i].gasLimit < U64 && txs[i].cost.intrinsic < I64 && txs[i].cost.floor < I64
        && txs[i].authRefund < I64 / 2
        && GasContract(fork, txs[i].gasLimit, txs[i].cost, txs[i].outcome)
      modifies this
      ensures Within() && done <= |txs|
      ensures cumulative == old(cumulative) + Charged(fork, txs[..done])
      ensures done < |txs| ==>
        !Admissible(fork, limit, cumulative, regular, state, txs[done].gasLimit, txs[done].cost)
    {
      done := 0;
      assert txs[..0] == [];
      while done < |txs|
        invariant Within() && done <= |txs|
        invariant cumulative == old(cumulative) + Charged(fork, txs[..done])
      {
        var tx := txs[done];
        var ok := Admit(tx.gasLimit, tx.cost);
        if !ok { return; }
        var used, granted := Settle(tx.gasLimit, tx.cost, tx.outcome, tx.authRefund);
        Finalize(tx.gasLimit, tx.cost, used);
        assert txs[..done + 1][..done] == txs[..done];
        done := done + 1;
      }
      assert txs[..done] == txs;
    }
  }

  /** Total gas charged by a sequence of executions. */
  function Charged(f: Fork, txs: seq<Execution>): int {
    if txs == [] then 0
    else
      var tx := txs[|txs| - 1];
      Charged(f, txs[..|txs| - 1]) + GasCharged(f, tx.gasLimit, tx.cost, tx.outcome, tx.authRefund)
  }
}
