/** Who pays for a transaction and who is paid: balances account by account, from the state before it to the
    state after it. */
module Payments {
  import opened Words
  import opened Options
  import opened Accounts
  import opened IntrinsicGases
  import opened StateTransitions
  import opened MessageRules

  /** What a unit of gas costs the sender, and what of it the beneficiary gets. */
  ghost function PriceOf(e: Env, tx: Transaction): nat {
    var (tip, cap) := Offer(tx.pricing);
    if e.london && tip + e.baseFee <= cap then tip + e.baseFee else cap
  }

  ghost function TipOf(e: Env, tx: Transaction): nat {
    if !e.london then PriceOf(e, tx) else if PriceOf(e, tx) < e.baseFee then 0 else PriceOf(e, tx) - e.baseFee
  }

  /** What the sender pays before the run. */
  ghost function Prepaid(e: Env, tx: Transaction): nat {
    tx.gas * PriceOf(e, tx) + L1CostOf(e, tx) + if e.cancun then BlobGasOf(tx) * e.blobBaseFee else 0
  }

  /** What an account gets after the run, when `left` of the gas is not used. One account may get several
      shares. */
  ghost function Share(e: Env, tx: Transaction, used: nat, left: nat, a: Address): nat
    requires tx.sender.Some?
  {
    (if a == tx.sender.value then left * PriceOf(e, tx) else 0)
    + (if a == e.coinbase then used * TipOf(e, tx) else 0)
    + (if e.merge && e.optimism && e.bedrock && a == e.baseFeeRecipient then used * e.baseFee else 0)
    + (if e.merge && e.optimism && e.bedrock && a == e.l1FeeRecipient && tx.l1Cost.Some? then tx.l1Cost.value else 0)
  }

  lemma AddExact(w: World, a: Address, amount: nat, b: Address)
    requires ValidWorld(w) && Total(w) + amount < U256
    ensures Balance(AddBalance(w, a, amount), b) == Balance(w, b) + if b == a then amount else 0
  {
    BalanceBelowTotal(w, a);
    Fits(Balance(w, a) + amount);
  }

  lemma PayExact(e: Env, w: World, pool: nat, tip: nat, base: nat, l1Cost: Option<nat>, used: nat, refund: nat, failed: bool, a: Address)
    requires ValidWorld(w)
    requires var paid := tip + (if e.RulesBedrock() then base + (if l1Cost.Some? then l1Cost.value else 0) else 0); Total(w) + paid < U256
    ensures var r := Pay(e, w, pool, tip, base, l1Cost, used, refund, failed);
            && r.Done? && r.pool == pool && r.used == used && r.refund == refund && r.failed == failed
            && Balance(r.world, a) == Balance(w, a)
                                      + (if a == e.coinbase then tip else 0)
                                      + (if e.RulesBedrock() && a == e.baseFeeRecipient then base else 0)
                                      + (if e.RulesBedrock() && a == e.l1FeeRecipient && l1Cost.Some? then l1Cost.value else 0)
  {
    var w1 := AddBalance(w, e.coinbase, tip);
    AddExact(w, e.coinbase, tip, a);
    AddKeeps(w, e.coinbase, tip);
    if e.RulesBedrock() {
      AddExact(w1, e.baseFeeRecipient, base, a);
      AddKeeps(w1, e.baseFeeRecipient, base);
      if l1Cost.Some? {
        AddExact(AddBalance(w1, e.baseFeeRecipient, base), e.l1FeeRecipient, l1Cost.value, a);
      }
    }
  }

  lemma PriceAndTip(e: Env, tx: Transaction)
    requires tx.sender.Some? && !tx.pricing.Deposit?
    ensures var m := BlockMessage(e, tx).value; m.gasPrice == PriceOf(e, tx) && EffectiveTip(e, m) == TipOf(e, tx)
  {
    MessageOf(e, tx);
  }

  lemma PrepaidIs(e: Env, tx: Transaction)
    requires tx.sender.Some? && !tx.pricing.Deposit?
    ensures Charged(e, BlockMessage(e, tx).value) == Prepaid(e, tx)
  {
    MessageOf(e, tx);
    PriceAndTip(e, tx);
  }

  /** Settlement credits every account with its share. */
  lemma SettleShares(e: Env, pool: nat, tx: Transaction, m: Message, run: Run, left: nat, used: nat, back: nat, tip: nat, base: nat, a: Address)
    requires tx.sender.Some? && !tx.pricing.Deposit? && m == BlockMessage(e, tx).value && run.gasLeft <= m.gasLimit && ValidWorld(run.world)
    requires left == run.gasLeft + Refund(e, m, run) && used + left == m.gasLimit
    requires back == left * m.gasPrice && tip == used * EffectiveTip(e, m) && base == used * e.baseFee && EffectiveTip(e, m) < U256
    requires Total(run.world) + back + tip + (if e.RulesBedrock() then base + L1Charge(e, m) else 0) < U256
    ensures var r := Settle(e, pool, m, run);
            && r.Done? && r.used == used && r.pool == pool + left && r.failed == run.failed && r.refund == left - run.gasLeft
            && Balance(r.world, a) == Balance(run.world, a)
                                      + (if a == tx.sender.value then back else 0)
                                      + (if a == e.coinbase then tip else 0)
                                      + (if e.RulesBedrock() && a == e.baseFeeRecipient then base else 0)
                                      + (if e.RulesBedrock() && a == e.l1FeeRecipient && tx.l1Cost.Some? then tx.l1Cost.value else 0)
  {
    MessageOf(e, tx);
    Fits(back);
    Fits(EffectiveTip(e, m));
    Fits(tip);
    SettlePays(e, pool, m, run, left, back);
    AddExact(run.world, m.from, back, a);
    AddKeeps(run.world, m.from, back);
    PayExact(e, AddBalance(run.world, m.from, back), pool + left, tip, base, m.l1Cost, used, Refund(e, m, run), run.failed, a);
  }

  /** The state a transaction's run starts from: its sender has paid, and a call has used its nonce; nothing else
      is different. */
  ghost predicate Begun(e: Env, w: World, tx: Transaction, before: World, a: Address)
    requires tx.sender.Some?
  {
    && Balance(before, a) == Balance(w, a) - (if a == tx.sender.value then Prepaid(e, tx) else 0)
    && Nonce(before, a) == Nonce(w, a) + (if a == tx.sender.value && tx.to.Some? then 1 else 0)
    && before.contracts == w.contracts && before.rest == w.rest
  }

  lemma Begins(e: Env, w: World, pool: nat, tx: Transaction, a: Address)
    requires tx.sender.Some? && !tx.pricing.Deposit? && Balance(w, tx.sender.value) < U256
    requires PreCheck(e, w, pool, BlockMessage(e, tx).value).Ok?
    ensures var m := BlockMessage(e, tx).value;
            var check := PreCheck(e, w, pool, m);
            && Begun(e, w, tx, Launched(check.world, m), a) && check.pool == pool - tx.gas
            && Total(check.world) == Total(w) - Prepaid(e, tx) && Prepaid(e, tx) <= Balance(w, tx.sender.value)
  {
    var m := BlockMessage(e, tx).value;
    MessageOf(e, tx);
    PriceWithinCap(tx, if e.london then Some(e.baseFee) else None);
    PrepaidIs(e, tx);
    ChargeCovered(e, w, pool, m);
    NonceBump(PreCheck(e, w, pool, m).world, m.from, a);
  }

  lemma NonceBump(w: World, from: Address, a: Address)
    requires Nonce(w, from) + 1 < U64
    ensures Nonce(BumpNonce(w, from), a) == Nonce(w, a) + if a == from then 1 else 0
  {
  }

  /** How much of the gas is not used: what the run left and the refund it earned, at most a fifth of what it
      used, or half before London. */
  ghost function LeftOver(e: Env, tx: Transaction, run: Run): nat
    requires run.gasLeft <= tx.gas
  {
    run.gasLeft + Min((tx.gas - run.gasLeft) / (if e.london then 5 else 2), run.refund)
  }

  /** What a transaction that was applied did, beyond its run: account by account, every balance after it is the one
      the run left plus that account's share. */
  lemma Effect(e: Env, evm: Evm, w: World, pool: nat, tx: Transaction, a: Address) returns (before: World, run: Run)
    requires tx.sender.Some? && !tx.pricing.Deposit? && ValidWorld(w) && Total(w) < U256 && (e.RulesBedrock() ==> e.london)
    requires PriceOf(e, tx) < U256 && Apply(e, evm, w, pool, BlockMessage(e, tx).value).Applied?
    ensures Begun(e, w, tx, before, a) && CostOf(e, tx).Gas? && CostOf(e, tx).value <= tx.gas
    ensures run == evm(before, BlockMessage(e, tx).value, tx.gas - CostOf(e, tx).value) && run.gasLeft <= tx.gas
    ensures var r, left := Apply(e, evm, w, pool, BlockMessage(e, tx).value), LeftOver(e, tx, run);
            && left <= tx.gas && r.used == tx.gas - left && r.pool == pool - r.used && r.failed == run.failed && !r.aborted
            && Balance(r.world, a) == Balance(run.world, a) + Share(e, tx, r.used, left, a)
            && r.world.nonces == run.world.nonces && r.world.contracts == run.world.contracts && r.world.rest == run.world.rest
  {
    var m := BlockMessage(e, tx).value;
    assert !m.isDeposit && m.mint.None? && m.gasLimit == tx.gas by {
      MessageOf(e, tx);
    }
    run := InParts(e, evm, w, pool, m);
    BalanceBelowTotal(w, tx.sender.value);
    Begins(e, w, pool, tx, a);
    before := Launched(PreCheck(e, w, pool, m).world, m);
    RunFits(e, w, pool, tx, m, run);
    Ends(e, PreCheck(e, w, pool, m).pool, tx, m, run, a);
    assert CostOf(e, tx) == IntrinsicCost(m.data, m.accessList, m.to.None?, e.homestead, e.istanbul, e.shanghai) by {
      MessageOf(e, tx);
    }
  }

  lemma Ends(e: Env, pool: nat, tx: Transaction, m: Message, run: Run, a: Address)
    requires tx.sender.Some? && !tx.pricing.Deposit? && m == BlockMessage(e, tx).value && run.gasLeft <= m.gasLimit == tx.gas && ValidWorld(run.world)
    requires PriceOf(e, tx) < U256 && forall used: nat, left: nat | used + left == m.gasLimit :: Fit(e, m, Total(run.world), used, left)
    ensures var s, left := Settle(e, pool, m, run), LeftOver(e, tx, run);
            && left <= tx.gas && s.Done? && s.used == tx.gas - left && s.pool == pool + left && s.failed == run.failed
            && Balance(s.world, a) == Balance(run.world, a) + Share(e, tx, s.used, left, a)
            && s.world.nonces == run.world.nonces && s.world.contracts == run.world.contracts && s.world.rest == run.world.rest
  {
    var left := LeftOver(e, tx, run);
    assert left == run.gasLeft + Refund(e, m, run);
    RefundBound(e, m, run);
    Finishes(e, pool, tx, m, run, left, tx.gas - left, a);
  }

  /** What is paid out, however the gas is split, fits a word on top of `total`. */
  ghost predicate Fit(e: Env, m: Message, total: nat, used: nat, left: nat) {
    total + left * m.gasPrice + used * EffectiveTip(e, m) + (if e.RulesBedrock() then used * e.baseFee + L1Charge(e, m) else 0) < U256
  }

  /** It never exceeds what was paid in. */
  lemma PaidOut(e: Env, tx: Transaction, m: Message, used: nat, left: nat, total: nat)
    requires tx.sender.Some? && !tx.pricing.Deposit? && m == BlockMessage(e, tx).value && (e.RulesBedrock() ==> e.london)
    requires used + left == m.gasLimit && (e.london ==> e.baseFee <= m.gasFeeCap)
    requires total + m.gasLimit * m.gasPrice + L1Charge(e, m) < U256
    ensures Fit(e, m, total, used, left)
  {
    TipPlusBaseFee(e, tx);
    CreditsBound(e, m, used, left);
  }

  lemma RunKeeps(e: Env, w: World, pool: nat, m: Message, run: Run, g: nat)
    requires !m.isDeposit && ValidWorld(w) && Total(w) < U256 && PreCheck(e, w, pool, m).Ok?
    requires Owes(Launched(PreCheck(e, w, pool, m).world, m), m, g, run) && Total(PreCheck(e, w, pool, m).world) <= Total(w)
    ensures ValidWorld(run.world) && Total(run.world) == Total(PreCheck(e, w, pool, m).world)
  {
    ChargeKeeps(e, w, pool, m);
    BumpKeeps(PreCheck(e, w, pool, m).world, m.from);
  }

  lemma RunFits(e: Env, w: World, pool: nat, tx: Transaction, m: Message, run: Run)
    requires tx.sender.Some? && !tx.pricing.Deposit? && m == BlockMessage(e, tx).value && (e.RulesBedrock() ==> e.london)
    requires ValidWorld(w) && Total(w) < U256 && PreCheck(e, w, pool, m).Ok?
    requires exists g: nat :: Owes(Launched(PreCheck(e, w, pool, m).world, m), m, g, run)
    ensures ValidWorld(run.world) && forall used: nat, left: nat | used + left == m.gasLimit :: Fit(e, m, Total(run.world), used, left)
  {
    var g: nat :| Owes(Launched(PreCheck(e, w, pool, m).world, m), m, g, run);
    BalanceBelowTotal(w, tx.sender.value);
    Begins(e, w, pool, tx, 0);
    MessageOf(e, tx);
    PrepaidIs(e, tx);
    RunKeeps(e, w, pool, m, run, g);
    forall used: nat, left: nat | used + left == m.gasLimit
      ensures Fit(e, m, Total(run.world), used, left)
    {
      PaidOut(e, tx, m, used, left, Total(run.world));
    }
  }

  lemma Finishes(e: Env, pool: nat, tx: Transaction, m: Message, run: Run, left: nat, used: nat, a: Address)
    requires tx.sender.Some? && !tx.pricing.Deposit? && m == BlockMessage(e, tx).value && run.gasLeft <= m.gasLimit && ValidWorld(run.world)
    requires left == run.gasLeft + Refund(e, m, run) && used + left == m.gasLimit && TipOf(e, tx) < U256
    requires Fit(e, m, Total(run.world), used, left)
    ensures var s := Settle(e, pool, m, run);
            && s.Done? && s.used == used && s.pool == pool + left && s.failed == run.failed
            && Balance(s.world, a) == Balance(run.world, a) + Share(e, tx, used, left, a)
            && s.world.nonces == run.world.nonces && s.world.contracts == run.world.contracts && s.world.rest == run.world.rest
  {
    var back, tip, base := Amounts(e, tx, m, Total(run.world), used, left);
    EndsWith(e, pool, tx, m, run, left, used, back, tip, base, a);
  }

  lemma Amounts(e: Env, tx: Transaction, m: Message, total: nat, used: nat, left: nat) returns (back: nat, tip: nat, base: nat)
    requires tx.sender.Some? && !tx.pricing.Deposit? && m == BlockMessage(e, tx).value && Fit(e, m, total, used, left)
    ensures m.gasPrice == PriceOf(e, tx) && EffectiveTip(e, m) == TipOf(e, tx)
    ensures back == left * m.gasPrice && tip == used * EffectiveTip(e, m) && base == used * e.baseFee
    ensures total + back + tip + (if e.RulesBedrock() then base + L1Charge(e, m) else 0) < U256
  {
    PriceAndTip(e, tx);
    back, tip, base := left * m.gasPrice, used * EffectiveTip(e, m), used * e.baseFee;
  }

  lemma EndsWith(e: Env, pool: nat, tx: Transaction, m: Message, run: Run, left: nat, used: nat, back: nat, tip: nat, base: nat, a: Address)
    requires tx.sender.Some? && !tx.pricing.Deposit? && m == BlockMessage(e, tx).value && run.gasLeft <= m.gasLimit && ValidWorld(run.world)
    requires left == run.gasLeft + Refund(e, m, run) && used + left == m.gasLimit
    requires m.gasPrice == PriceOf(e, tx) && EffectiveTip(e, m) == TipOf(e, tx) < U256
    requires back == left * m.gasPrice && tip == used * EffectiveTip(e, m) && base == used * e.baseFee
    requires Total(run.world) + back + tip + (if e.RulesBedrock() then base + L1Charge(e, m) else 0) < U256
    ensures var s := Settle(e, pool, m, run);
            && s.Done? && s.used == used && s.pool == pool + left && s.failed == run.failed
            && Balance(s.world, a) == Balance(run.world, a) + Share(e, tx, used, left, a)
            && s.world.nonces == run.world.nonces && s.world.contracts == run.world.contracts && s.world.rest == run.world.rest
  {
    SettleShares(e, pool, tx, m, run, left, used, back, tip, base, a);
    ShareIs(e, tx, used, left, back, tip, base, a);
    SettleKeepsNonces(e, pool, m, run);
  }

  lemma ShareIs(e: Env, tx: Transaction, used: nat, left: nat, back: nat, tip: nat, base: nat, a: Address)
    requires tx.sender.Some? && back == left * PriceOf(e, tx) && tip == used * TipOf(e, tx) && base == used * e.baseFee
    ensures Share(e, tx, used, left, a) ==
            (if a == tx.sender.value then back else 0)
            + (if a == e.coinbase then tip else 0)
            + (if e.RulesBedrock() && a == e.baseFeeRecipient then base else 0)
            + (if e.RulesBedrock() && a == e.l1FeeRecipient && tx.l1Cost.Some? then tx.l1Cost.value else 0)
  {
  }

  // ---- Deposits ----

  /** The state a deposit's run starts from: its mint has arrived, and a call has used a nonce. */
  ghost predicate Arrived(w: World, tx: Transaction, before: World, a: Address)
    requires tx.sender.Some?
  {
    && Balance(before, a) == Balance(w, a) + (if a == tx.sender.value then MintOf(tx) else 0)
    && Nonce(before, a) == (if a == tx.sender.value && tx.to.Some? then (Nonce(w, a) + 1) % U64 else Nonce(w, a))
    && before.contracts == w.contracts && before.rest == w.rest
  }

  lemma Arrives(e: Env, w: World, tx: Transaction, a: Address)
    requires tx.sender.Some? && tx.pricing.Deposit? && ValidWorld(w) && Total(w) + MintOf(tx) < U256
    ensures var m := BlockMessage(e, tx).value;
            && Arrived(w, tx, Launched(Minted(w, m), m), a) && ValidWorld(Minted(w, m)) && Total(Minted(w, m)) == Total(w) + MintOf(tx)
  {
    var m := BlockMessage(e, tx).value;
    MessageOf(e, tx);
    if m.mint.Some? {
      AddExact(w, m.from, m.mint.value, a);
      AddKeeps(w, m.from, m.mint.value);
    }
  }

  lemma NothingBack(e: Env, pool: nat, tx: Transaction, run: Run, a: Address)
    requires tx.sender.Some? && tx.pricing.Deposit? && run.gasLeft <= tx.gas && ValidWorld(run.world) && Total(run.world) < U256
    ensures var m := BlockMessage(e, tx).value;
            m.gasLimit == tx.gas && var s := Settle(e, pool, m, run);
            && s.Done? && Balance(s.world, a) == Balance(run.world, a) && s.failed == run.failed
            && s.used == (if e.merge && e.optimism && e.regolith then tx.gas - LeftOver(e, tx, run) else if tx.pricing.isSystem then 0 else tx.gas)
  {
    var m := BlockMessage(e, tx).value;
    MessageOf(e, tx);
    RefundBound(e, m, run);
    PriceWithinCap(tx, if e.london then Some(e.baseFee) else None);
    assert (run.gasLeft + Refund(e, m, run)) * m.gasPrice % U256 == 0;
    AddExact(run.world, m.from, 0, a);
  }

  /** What a deposit that ran did beyond its run: nothing to any balance, since its gas is free. */
  lemma DepositEffect(e: Env, evm: Evm, w: World, pool: nat, tx: Transaction, a: Address) returns (before: World, run: Run)
    requires tx.sender.Some? && tx.pricing.Deposit? && ValidWorld(w) && Total(w) + MintOf(tx) < U256
    requires var r := Apply(e, evm, w, pool, BlockMessage(e, tx).value); r.Applied? && !r.aborted
    ensures Arrived(w, tx, before, a) && CostOf(e, tx).Gas? && CostOf(e, tx).value <= tx.gas
    ensures run == evm(before, BlockMessage(e, tx).value, tx.gas - CostOf(e, tx).value) && run.gasLeft <= tx.gas
    ensures var r := Apply(e, evm, w, pool, BlockMessage(e, tx).value);
            && Balance(r.world, a) == Balance(run.world, a) && r.failed == run.failed
            && r.used == (if e.merge && e.optimism && e.regolith then tx.gas - LeftOver(e, tx, run) else if tx.pricing.isSystem then 0 else tx.gas)
            && r.world.nonces == run.world.nonces && r.world.contracts == run.world.contracts && r.world.rest == run.world.rest
  {
    var m := BlockMessage(e, tx).value;
    MessageOf(e, tx);
    Arrives(e, w, tx, a);
    var check := PreCheck(e, Minted(w, m), pool, m);
    assert check.Ok? && check.world == Minted(w, m);
    run := Ran(e, evm, check.world, check.pool, m);
    before := Launched(check.world, m);
    BumpKeeps(check.world, m.from);
    NothingBack(e, check.pool, tx, run, a);
    SettleKeepsNonces(e, check.pool, m, run);
  }
}
