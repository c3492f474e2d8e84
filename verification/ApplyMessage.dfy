/** The state transition as it runs: an object that buys gas, executes, refunds and pays fees,
    mutating the account state and the block's gas pool. */
module ApplyMessages {
  import opened Words
  import opened Options
  import opened Accounts
  import opened IntrinsicGases
  import opened StateTransitions

  class GasPool {
    var gas: nat

    constructor (gas: nat)
      ensures this.gas == gas
    {
      this.gas := gas;
    }

    /** Panics, which is not `ok`, when the pool would pass 64 bits. */
    method AddGas(amount: nat) returns (ok: bool)
      modifies this
      ensures ok <==> old(gas) + amount <= MAX_U64
      ensures gas == if ok then old(gas) + amount else old(gas)
    {
      ok := amount <= MAX_U64 && gas <= MAX_U64 - amount;
      if ok {
        gas := gas + amount;
      }
    }

    method SubGas(amount: nat) returns (ok: bool)
      modifies this
      ensures ok <==> amount <= old(gas)
      ensures gas == if ok then old(gas) - amount else old(gas)
    {
      ok := gas >= amount;
      if ok {
        gas := gas - amount;
      }
    }
  }

  class StateTransition {
    const e: Env
    const evm: Evm
    const m: Message
    const gp: GasPool
    var world: World
    var gasRemaining: nat
    var initialGas: nat

    constructor (e: Env, evm: Evm, m: Message, gp: GasPool, world: World)
      ensures this.e == e && this.evm == evm && this.m == m && this.gp == gp && this.world == world
      ensures gasRemaining == 0 && initialGas == 0
    {
      this.e, this.evm, this.m, this.gp, this.world := e, evm, m, gp, world;
      gasRemaining, initialGas := 0, 0;
    }

    /** Buys the whole gas limit, or reports why it cannot. */
    method BuyGas() returns (err: Option<Error>)
      modifies this, gp
      ensures var afford := Required(e, m) < U256 && Required(e, m) <= Balance(old(world), m.from);
              && (!afford ==> err == Some(InsufficientFunds))
              && (afford && old(gp.gas) < m.gasLimit ==> err == Some(GasLimitReached))
              && (afford && old(gp.gas) >= m.gasLimit ==> err.None?)
      ensures err.Some? ==> world == old(world) && gp.gas == old(gp.gas)
      ensures err.None? ==> world == SubBalance(old(world), m.from, Charged(e, m) % U256) && gp.gas == old(gp.gas) - m.gasLimit
      ensures err.None? ==> gasRemaining == initialGas == m.gasLimit
    {
      var mgval := m.gasLimit * m.gasPrice;
      var l1Cost := if e.optimism then m.l1Cost else None;
      if l1Cost.Some? {
        mgval := mgval + l1Cost.value;
      }
      var balanceCheck := m.gasLimit * m.gasFeeCap;
      if l1Cost.Some? {
        balanceCheck := balanceCheck + l1Cost.value;
      }
      balanceCheck := balanceCheck + m.value;
      if e.cancun && m.BlobGas() > 0 {
        balanceCheck := balanceCheck + m.BlobGas() * m.blobFeeCap;
        mgval := mgval + m.BlobGas() * e.blobBaseFee;
      }
      assert balanceCheck == Required(e, m) && mgval == Charged(e, m);
      if balanceCheck >= U256 || Balance(world, m.from) < balanceCheck {
        return Some(InsufficientFunds);
      }
      var ok := gp.SubGas(m.gasLimit);
      if !ok {
        return Some(GasLimitReached);
      }
      gasRemaining, initialGas := m.gasLimit, m.gasLimit;
      world := SubBalance(world, m.from, mgval % U256);
      err := None;
    }

    method PreCheckMessage() returns (err: Option<Error>)
      requires gasRemaining == 0
      modifies this, gp
      ensures var c := PreCheck(e, old(world), old(gp.gas), m);
              && err == (if c.Bad? then Some(c.error) else None)
              && gp.gas == c.pool
              && (c.Ok? ==> world == c.world && gasRemaining == initialGas == m.gasLimit)
    {
      if m.isDeposit {
        initialGas := m.gasLimit;
        gasRemaining := gasRemaining + m.gasLimit;
        if m.isSystem {
          if e.OptimismRegolith() {
            return Some(SystemTxNotSupported);
          }
          return None;
        }
        var ok := gp.SubGas(m.gasLimit);
        return if ok then None else Some(GasLimitReached);
      }
      err := Objection(e, world, m);
      if err.None? {
        err := BuyGas();
      }
    }

    /** Grants the refund the run earned, capped by the quotient, and returns unspent gas to the
        sender's balance and to the pool. The pool cannot overflow: it gets back part of what it gave. */
    method RefundGas(run: Run) returns (refund: nat)
      requires gasRemaining == run.gasLeft <= initialGas == m.gasLimit && gp.gas + initialGas <= MAX_U64
      modifies this`world, this`gasRemaining, gp
      ensures refund == Refund(e, m, run) && gasRemaining == run.gasLeft + refund <= initialGas
      ensures world == AddBalance(old(world), m.from, gasRemaining * m.gasPrice % U256)
      ensures gp.gas == old(gp.gas) + gasRemaining
    {
      refund := (initialGas - gasRemaining) / e.RefundQuotient();
      if refund > run.refund {
        refund := run.refund;
      }
      RefundBound(e, m, run);
      gasRemaining := gasRemaining + refund;
      world := AddBalance(world, m.from, gasRemaining * m.gasPrice % U256);
      var ok := gp.AddGas(gasRemaining);
      assert ok;
    }

    /** Credits the tip, and on a Bedrock chain the base fee and the L1 cost. */
    method PayTo(used: nat, refund: nat, failed: bool) returns (r: Inner)
      requires !m.isDeposit
      modifies this`world
      ensures r == PayFees(e, old(world), gp.gas, m, used, refund, failed)
      ensures r.Done? ==> world == r.world
    {
      world := AddBalance(world, e.coinbase, used * (EffectiveTip(e, m) % U256) % U256);
      if e.RulesBedrock() {
        var gasCost := used * e.baseFee;
        if gasCost >= U256 {
          return Fail(GasCostOverflow, gp.gas);
        }
        world := AddBalance(world, e.baseFeeRecipient, gasCost);
        if m.l1Cost.Some? {
          if m.l1Cost.value >= U256 {
            return Fail(L1CostOverflow, gp.gas);
          }
          world := AddBalance(world, e.l1FeeRecipient, m.l1Cost.value);
        }
      }
      r := Done(world, gp.gas, used, refund, failed);
    }

    /** What follows execution: refunds and fees, which deposits skip in part. */
    method SettleRun(run: Run) returns (r: Inner)
      requires run.gasLeft <= initialGas == m.gasLimit
      requires !m.isDeposit || e.RulesRegolith() ==> gp.gas + initialGas <= MAX_U64
      modifies this, gp
      ensures r == Settle(e, old(gp.gas), m, run)
      ensures r.Done? ==> world == r.world
      ensures gp.gas == r.pool
    {
      world, gasRemaining := run.world, run.gasLeft;
      if m.isDeposit && !e.RulesRegolith() {
        return Done(world, gp.gas, if m.isSystem then 0 else m.gasLimit, 0, run.failed);
      }
      var refund := RefundGas(run);
      var used := initialGas - gasRemaining;
      if m.isDeposit {
        return Done(world, gp.gas, used, refund, run.failed);
      }
      r := PayTo(used, refund, run.failed);
    }

    /** The message after minting: checks, intrinsic gas, execution, settlement. */
    method InnerTransition() returns (r: Inner)
      requires gasRemaining == 0 && gp.gas <= MAX_U64
      modifies this, gp
      ensures r == Attempt(e, evm, old(world), old(gp.gas), m)
      ensures r.Done? ==> world == r.world
      ensures gp.gas == r.pool
    {
      var err := PreCheckMessage();
      if err.Some? {
        return Fail(err.value, gp.gas);
      }
      r := ExecuteMessage();
    }

    /** Deducts the intrinsic gas and makes the last checks before execution. */
    method Prepare() returns (error: Option<Error>)
      requires gasRemaining == m.gasLimit
      modifies `gasRemaining
      ensures var cost := IntrinsicCost(m.data, m.accessList, m.to.None?, e.homestead, e.istanbul, e.shanghai);
              && error == Obstacle(e, world, m, cost)
              && (error.None? ==> gasRemaining == m.gasLimit - cost.value)
    {
      var cost := IntrinsicGas(m.data, m.accessList, m.to.None?, e.homestead, e.istanbul, e.shanghai);
      if cost.GasUintOverflow? {
        return Some(IntrinsicOverflow);
      }
      if gasRemaining < cost.value {
        return Some(IntrinsicGasTooLow);
      }
      gasRemaining := gasRemaining - cost.value;
      if m.value >= U256 || (m.value != 0 && Balance(world, m.from) < m.value) {
        return Some(InsufficientFundsForTransfer);
      }
      if e.shanghai && m.to.None? && |m.data| > MAX_INIT_CODE_SIZE {
        return Some(MaxInitCodeSizeExceeded);
      }
      error := None;
    }

    /** From intrinsic gas to settlement, once the gas is bought or set aside. */
    method ExecuteMessage() returns (r: Inner)
      requires gasRemaining == initialGas == m.gasLimit
      requires !m.isDeposit || e.RulesRegolith() ==> gp.gas + initialGas <= MAX_U64
      modifies this, gp
      ensures r == Execute(e, evm, old(world), old(gp.gas), m)
      ensures r.Done? ==> world == r.world
      ensures gp.gas == r.pool
    {
      var error := Prepare();
      if error.Some? {
        return Fail(error.value, gp.gas);
      }
      if m.to.Some? {
        world := BumpNonce(world, m.from);
      }
      var run := evm(world, m, gasRemaining);
      r := SettleRun(run);
    }

    /** Mints, runs the message, and turns a failed deposit into an included one by reverting to
        the snapshot taken after the mint. */
    method TransitionDb() returns (r: Outcome)
      requires gasRemaining == 0 && gp.gas <= MAX_U64
      modifies this, gp
      ensures r == Apply(e, evm, old(world), old(gp.gas), m)
      ensures r.Applied? ==> world == r.world && gp.gas == r.pool
    {
      if m.mint.Some? {
        if m.mint.value >= U256 {
          return Rejected(MintOverflow);
        }
        world := AddBalance(world, m.from, m.mint.value);
      }
      var snapshot := world;
      var inner := InnerTransition();
      match inner
      case Done(w, p, used, refund, failed) =>
        r := Applied(w, p, used, refund, failed, false);
      case Fail(error, p) =>
        if m.isDeposit && error != GasLimitReached {
          world := BumpNonce(snapshot, m.from);
          r := Applied(world, p, if m.isSystem && !e.regolith then 0 else m.gasLimit, 0, true, true);
        } else {
          r := Rejected(error);
        }
    }
  }
}
