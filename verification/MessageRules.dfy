/** What a block's rules ask of a transaction, rule by rule, and that applying one accepts exactly what they
    allow: the verdict of the checks is the first rule in order that the transaction breaks. */
module MessageRules {
  import opened Words
  import opened Options
  import opened Accounts
  import opened IntrinsicGases
  import opened StateTransitions

  /** What a transaction offers per unit of gas: to the block's beneficiary, and in all. */
  ghost function Offer(p: Pricing): (nat, nat) {
    match p
    case Legacy(price) => (price, price)
    case DynamicFee(tip, cap) => (tip, cap)
    case Blob(tip, cap, _, _) => (tip, cap)
    case Deposit(_, _) => (0, 0)
  }

  ghost function BlobGasOf(tx: Transaction): nat {
    if tx.pricing.Blob? then |tx.pricing.hashes| * 131072 else 0
  }

  ghost function L1CostOf(e: Env, tx: Transaction): nat {
    if e.optimism && tx.l1Cost.Some? then tx.l1Cost.value else 0
  }

  /** What the sender must own for the worst case. */
  ghost function Worst(e: Env, tx: Transaction): nat {
    tx.gas * Offer(tx.pricing).1 + L1CostOf(e, tx) + tx.value
    + if e.cancun && tx.pricing.Blob? then BlobGasOf(tx) * tx.pricing.blobFeeCap else 0
  }

  ghost function CostOf(e: Env, tx: Transaction): GasResult {
    IntrinsicCost(tx.data, tx.accessList, tx.to.None?, e.homestead, e.istanbul, e.shanghai)
  }

  /** Whether a transaction breaks a rule. */
  ghost predicate Broken(e: Env, w: World, pool: nat, tx: Transaction, rule: Error)
    requires tx.sender.Some?
  {
    var from, (tip, cap) := tx.sender.value, Offer(tx.pricing);
    match rule
    case NonceTooHigh => tx.nonce > Nonce(w, from)
    case NonceTooLow => tx.nonce < Nonce(w, from)
    case NonceMax => tx.nonce >= MAX_U64
    case SenderNoEOA => from in w.contracts
    case FeeCapVeryHigh => e.london && cap >= U256
    case TipVeryHigh => e.london && tip >= U256
    case TipAboveFeeCap => e.london && tip > cap
    case FeeCapTooLow => e.london && cap < e.baseFee
    case BlobTxCreate => tx.pricing.Blob? && tx.to.None?
    case MissingBlobHashes => tx.pricing.Blob? && |tx.pricing.hashes| == 0
    case InvalidBlobHash => tx.pricing.Blob? && exists i | 0 <= i < |tx.pricing.hashes| :: !tx.pricing.hashes[i]
    case BlobFeeCapTooLow => e.cancun && BlobGasOf(tx) > 0 && tx.pricing.blobFeeCap < e.blobBaseFee
    case InsufficientFunds => Worst(e, tx) >= U256 || Worst(e, tx) > Balance(w, from)
    case GasLimitReached => tx.gas > pool
    case IntrinsicOverflow => CostOf(e, tx).GasUintOverflow?
    case IntrinsicGasTooLow => CostOf(e, tx).Gas? && CostOf(e, tx).value > tx.gas
    case MaxInitCodeSizeExceeded => e.shanghai && tx.to.None? && |tx.data| > 49152
    case _ => false
  }

  const RULES: seq<Error> := [
    NonceTooHigh, NonceTooLow, NonceMax, SenderNoEOA, FeeCapVeryHigh, TipVeryHigh, TipAboveFeeCap, FeeCapTooLow,
    BlobTxCreate, MissingBlobHashes, InvalidBlobHash, BlobFeeCapTooLow, InsufficientFunds, GasLimitReached,
    IntrinsicOverflow, IntrinsicGasTooLow, MaxInitCodeSizeExceeded]

  /** The first rule from the `i`th on that a transaction breaks. */
  ghost function FirstBroken(e: Env, w: World, pool: nat, tx: Transaction, i: nat): Option<Error>
    requires tx.sender.Some? && i <= |RULES|
    decreases |RULES| - i
  {
    if i == |RULES| then None else if Broken(e, w, pool, tx, RULES[i]) then Some(RULES[i]) else FirstBroken(e, w, pool, tx, i + 1)
  }

  lemma MessageOf(e: Env, tx: Transaction)
    requires tx.sender.Some?
    ensures BlockMessage(e, tx).Some?
    ensures var m := BlockMessage(e, tx).value;
            && m.from == tx.sender.value && m.to == tx.to && m.nonce == tx.nonce && m.value == tx.value && m.gasLimit == tx.gas
            && m.data == tx.data && m.accessList == tx.accessList && m.isDeposit == tx.pricing.Deposit?
            && (m.gasTipCap, m.gasFeeCap) == Offer(tx.pricing) && m.BlobGas() == BlobGasOf(tx)
            && m.mint == (if tx.pricing.Deposit? then tx.pricing.mint else None)
            && m.isSystem == (tx.pricing.Deposit? && tx.pricing.isSystem)
            && m.l1Cost == (if tx.pricing.Deposit? then None else tx.l1Cost)
            && (tx.pricing.Blob? ==> m.blobHashes == Some(tx.pricing.hashes) && m.blobFeeCap == tx.pricing.blobFeeCap)
            && (!tx.pricing.Blob? ==> m.blobHashes == None)
  {
  }

  lemma WorstIsRequired(e: Env, tx: Transaction)
    requires tx.sender.Some? && !tx.pricing.Deposit?
    ensures Required(e, BlockMessage(e, tx).value) == Worst(e, tx)
  {
    MessageOf(e, tx);
  }

  /** The fee and nonce rules come first. */
  lemma FirstOfSender(e: Env, w: World, pool: nat, tx: Transaction)
    requires tx.sender.Some? && !tx.pricing.Deposit?
    ensures var o := Objection(e, w, BlockMessage(e, tx).value);
            FirstBroken(e, w, pool, tx, 0) == if o.Some? then o else FirstBroken(e, w, pool, tx, 12)
  {
    var m := BlockMessage(e, tx).value;
    MessageOf(e, tx);
    FirstOfFees(e, w, pool, tx);
    assert FirstBroken(e, w, pool, tx, 0) == if Broken(e, w, pool, tx, NonceTooHigh) then Some(NonceTooHigh) else FirstBroken(e, w, pool, tx, 1);
    assert FirstBroken(e, w, pool, tx, 1) == if Broken(e, w, pool, tx, NonceTooLow) then Some(NonceTooLow) else FirstBroken(e, w, pool, tx, 2);
    assert FirstBroken(e, w, pool, tx, 2) == if Broken(e, w, pool, tx, NonceMax) then Some(NonceMax) else FirstBroken(e, w, pool, tx, 3);
    assert FirstBroken(e, w, pool, tx, 3) == if Broken(e, w, pool, tx, SenderNoEOA) then Some(SenderNoEOA) else FirstBroken(e, w, pool, tx, 4);
  }

  lemma FirstOfFees(e: Env, w: World, pool: nat, tx: Transaction)
    requires tx.sender.Some? && !tx.pricing.Deposit?
    ensures var o := FeeObjection(e, BlockMessage(e, tx).value);
            FirstBroken(e, w, pool, tx, 4) == if o.Some? then o else FirstBroken(e, w, pool, tx, 12)
  {
    MessageOf(e, tx);
    FirstOfBlobs(e, w, pool, tx);
    assert FirstBroken(e, w, pool, tx, 4) == if Broken(e, w, pool, tx, FeeCapVeryHigh) then Some(FeeCapVeryHigh) else FirstBroken(e, w, pool, tx, 5);
    assert FirstBroken(e, w, pool, tx, 5) == if Broken(e, w, pool, tx, TipVeryHigh) then Some(TipVeryHigh) else FirstBroken(e, w, pool, tx, 6);
    assert FirstBroken(e, w, pool, tx, 6) == if Broken(e, w, pool, tx, TipAboveFeeCap) then Some(TipAboveFeeCap) else FirstBroken(e, w, pool, tx, 7);
    assert FirstBroken(e, w, pool, tx, 7) == if Broken(e, w, pool, tx, FeeCapTooLow) then Some(FeeCapTooLow) else FirstBroken(e, w, pool, tx, 8);
  }

  lemma FirstOfBlobs(e: Env, w: World, pool: nat, tx: Transaction)
    requires tx.sender.Some? && !tx.pricing.Deposit?
    ensures var o := BlobObjection(e, BlockMessage(e, tx).value);
            FirstBroken(e, w, pool, tx, 8) == if o.Some? then o else FirstBroken(e, w, pool, tx, 12)
  {
    MessageOf(e, tx);
    assert FirstBroken(e, w, pool, tx, 8) == if Broken(e, w, pool, tx, BlobTxCreate) then Some(BlobTxCreate) else FirstBroken(e, w, pool, tx, 9);
    assert FirstBroken(e, w, pool, tx, 9) == if Broken(e, w, pool, tx, MissingBlobHashes) then Some(MissingBlobHashes) else FirstBroken(e, w, pool, tx, 10);
    assert FirstBroken(e, w, pool, tx, 10) == if Broken(e, w, pool, tx, InvalidBlobHash) then Some(InvalidBlobHash) else FirstBroken(e, w, pool, tx, 11);
    assert FirstBroken(e, w, pool, tx, 11) == if Broken(e, w, pool, tx, BlobFeeCapTooLow) then Some(BlobFeeCapTooLow) else FirstBroken(e, w, pool, tx, 12);
  }

  lemma FirstOfRest(e: Env, w: World, pool: nat, tx: Transaction)
    requires tx.sender.Some?
    ensures FirstBroken(e, w, pool, tx, 12) ==
            if Broken(e, w, pool, tx, InsufficientFunds) then Some(InsufficientFunds)
            else if Broken(e, w, pool, tx, GasLimitReached) then Some(GasLimitReached)
            else FirstBroken(e, w, pool, tx, 14)
    ensures FirstBroken(e, w, pool, tx, 14) ==
            if Broken(e, w, pool, tx, IntrinsicOverflow) then Some(IntrinsicOverflow)
            else if Broken(e, w, pool, tx, IntrinsicGasTooLow) then Some(IntrinsicGasTooLow)
            else if Broken(e, w, pool, tx, MaxInitCodeSizeExceeded) then Some(MaxInitCodeSizeExceeded)
            else None
  {
    assert FirstBroken(e, w, pool, tx, 17) == None;
  }

  /** The checks before execution: the first broken rule up to the pool's, if any. */
  lemma CheckIsFirst(e: Env, w: World, pool: nat, tx: Transaction)
    requires tx.sender.Some? && !tx.pricing.Deposit?
    ensures var check := PreCheck(e, w, pool, BlockMessage(e, tx).value);
            FirstBroken(e, w, pool, tx, 0) == if check.Bad? then Some(check.error) else FirstBroken(e, w, pool, tx, 14)
  {
    MessageOf(e, tx);
    WorstIsRequired(e, tx);
    FirstOfSender(e, w, pool, tx);
    FirstOfRest(e, w, pool, tx);
  }

  // ---- The verdict ----

  /** Every fee that is paid out fits a word. */
  lemma FeesFit(e: Env, m: Message, used: nat)
    requires Required(e, m) < U256 && used <= m.gasLimit && (e.RulesBedrock() ==> e.baseFee <= m.gasFeeCap)
    ensures e.RulesBedrock() ==> used * e.baseFee < U256 && (m.l1Cost.Some? ==> m.l1Cost.value < U256)
  {
    if e.RulesBedrock() {
      MulMono(e.baseFee, used, m.gasLimit);
      MulMono(m.gasLimit, e.baseFee, m.gasFeeCap);
    }
  }

  lemma SettleDone(e: Env, pool: nat, m: Message, run: Run)
    requires !m.isDeposit && run.gasLeft <= m.gasLimit && Required(e, m) < U256 && (e.RulesBedrock() ==> e.baseFee <= m.gasFeeCap)
    ensures Settle(e, pool, m, run).Done?
  {
    RefundBound(e, m, run);
    FeesFit(e, m, m.gasLimit - (run.gasLeft + Refund(e, m, run)));
  }

  /** Execution fails only for an obstacle in its way. */
  lemma OnlyObstacles(e: Env, evm: Evm, w: World, pool: nat, m: Message)
    requires !m.isDeposit && Required(e, m) < U256 && (e.RulesBedrock() ==> e.baseFee <= m.gasFeeCap)
    ensures var cost := IntrinsicCost(m.data, m.accessList, m.to.None?, e.homestead, e.istanbul, e.shanghai);
            var o, r := Obstacle(e, w, m, cost), Execute(e, evm, w, pool, m);
            o == if r.Fail? then Some(r.error) else None
  {
    var cost := IntrinsicCost(m.data, m.accessList, m.to.None?, e.homestead, e.istanbul, e.shanghai);
    if Obstacle(e, w, m, cost).None? {
      SettleDone(e, pool, m, evm(if m.to.None? then w else BumpNonce(w, m.from), m, m.gasLimit - cost.value));
    }
  }

  /** Past the checks only the intrinsic gas and the size of init code can stand in the way. */
  lemma ObstacleIsFirst(e: Env, w: World, w1: World, pool: nat, tx: Transaction)
    requires tx.sender.Some? && tx.value < U256 && tx.value <= Balance(w1, tx.sender.value)
    ensures Obstacle(e, w1, BlockMessage(e, tx).value, CostOf(e, tx)) == FirstBroken(e, w, pool, tx, 14)
  {
    MessageOf(e, tx);
    FirstOfRest(e, w, pool, tx);
  }

  lemma AfterCheck(e: Env, evm: Evm, w: World, pool: nat, tx: Transaction)
    requires tx.sender.Some? && !tx.pricing.Deposit? && Balance(w, tx.sender.value) < U256 && (e.RulesBedrock() ==> e.london)
    requires PreCheck(e, w, pool, BlockMessage(e, tx).value).Ok?
    ensures var check := PreCheck(e, w, pool, BlockMessage(e, tx).value);
            var r := Execute(e, evm, check.world, check.pool, BlockMessage(e, tx).value);
            FirstBroken(e, w, pool, tx, 14) == if r.Fail? then Some(r.error) else None
  {
    var m := BlockMessage(e, tx).value;
    var check := PreCheck(e, w, pool, m);
    assert m.from == tx.sender.value && m.value == tx.value && !m.isDeposit && m.gasPrice <= m.gasFeeCap by {
      MessageOf(e, tx);
      PriceWithinCap(tx, if e.london then Some(e.baseFee) else None);
    }
    ChargeCovered(e, w, pool, m);
    ObstacleIsFirst(e, w, check.world, pool, tx);
    assert e.london ==> e.baseFee <= m.gasFeeCap;
    OnlyObstacles(e, evm, check.world, check.pool, m);
  }

  /** The verdict on a transaction that is not a deposit: it is applied exactly when it breaks no rule, and
      rejected for the first one it breaks. */
  lemma Verdict(e: Env, evm: Evm, w: World, pool: nat, tx: Transaction)
    requires tx.sender.Some? && !tx.pricing.Deposit? && Balance(w, tx.sender.value) < U256 && (e.RulesBedrock() ==> e.london)
    ensures BlockMessage(e, tx).Some?
    ensures var r := Apply(e, evm, w, pool, BlockMessage(e, tx).value);
            FirstBroken(e, w, pool, tx, 0) == if r.Rejected? then Some(r.error) else None
  {
    CheckIsFirst(e, w, pool, tx);
    if PreCheck(e, w, pool, BlockMessage(e, tx).value).Ok? {
      AfterCheck(e, evm, w, pool, tx);
    }
  }

  /** What that means for a transaction in a block. */
  ghost predicate Keeps(e: Env, w: World, pool: nat, tx: Transaction, k: nat)
    requires tx.sender.Some? && k < |RULES|
  {
    !Broken(e, w, pool, tx, RULES[k])
  }

  lemma {:induction false} NoneBroken(e: Env, w: World, pool: nat, tx: Transaction, i: nat)
    requires tx.sender.Some? && i <= |RULES|
    ensures FirstBroken(e, w, pool, tx, i).None? <==> forall k: nat | i <= k < |RULES| :: Keeps(e, w, pool, tx, k)
    decreases |RULES| - i
  {
    if i < |RULES| {
      NoneBroken(e, w, pool, tx, i + 1);
      assert FirstBroken(e, w, pool, tx, i).None? <==> Keeps(e, w, pool, tx, i) && FirstBroken(e, w, pool, tx, i + 1).None?;
    }
  }

  // ---- Deposits ----

  ghost function MintOf(tx: Transaction): nat {
    if tx.pricing.Deposit? && tx.pricing.mint.Some? then tx.pricing.mint.value else 0
  }

  /** What keeps a deposit from running: no nonce, fee or balance for gas is asked of it. */
  ghost predicate CannotRun(e: Env, w: World, tx: Transaction)
    requires tx.sender.Some? && tx.pricing.Deposit?
  {
    || (tx.pricing.isSystem && e.optimism && e.regolith)
    || CostOf(e, tx).GasUintOverflow? || CostOf(e, tx).value > tx.gas
    || tx.value >= U256 || tx.value > Balance(w, tx.sender.value) + MintOf(tx)
    || (e.shanghai && tx.to.None? && |tx.data| > 49152)
  }

  /** A deposit is rejected only for the pool; of the others exactly those that cannot run are included as
      failed. */
  lemma DepositVerdict(e: Env, evm: Evm, w: World, pool: nat, tx: Transaction)
    requires tx.sender.Some? && tx.pricing.Deposit? && Balance(w, tx.sender.value) + MintOf(tx) < U256
    ensures var r := Apply(e, evm, w, pool, BlockMessage(e, tx).value);
            && (r.Rejected? <==> !tx.pricing.isSystem && tx.gas > pool)
            && (r.Applied? ==> (r.aborted <==> CannotRun(e, w, tx)))
  {
    var m := BlockMessage(e, tx).value;
    MessageOf(e, tx);
    DepositIncluded(e, evm, w, pool, m);
    var check := PreCheck(e, Minted(w, m), pool, m);
    if check.Ok? {
      DepositObstacle(e, evm, w, check.pool, tx);
    }
  }

  lemma DepositObstacle(e: Env, evm: Evm, w: World, pool: nat, tx: Transaction)
    requires tx.sender.Some? && tx.pricing.Deposit? && Balance(w, tx.sender.value) + MintOf(tx) < U256
    requires !(tx.pricing.isSystem && e.optimism && e.regolith)
    ensures var m := BlockMessage(e, tx).value; Execute(e, evm, Minted(w, m), pool, m).Fail? <==> CannotRun(e, w, tx)
  {
    var m := BlockMessage(e, tx).value;
    MessageOf(e, tx);
    assert Balance(Minted(w, m), m.from) == Balance(w, m.from) + MintOf(tx);
  }

  // ---- Nonces ----

  /** The state a run starts from: a call has its nonce already. */
  ghost function Launched(w: World, m: Message): World {
    if m.to.None? then w else BumpNonce(w, m.from)
  }

  /** The run behind a message that was executed. */
  lemma Ran(e: Env, evm: Evm, w: World, pool: nat, m: Message) returns (run: Run)
    requires Execute(e, evm, w, pool, m).Done?
    ensures var cost := IntrinsicCost(m.data, m.accessList, m.to.None?, e.homestead, e.istanbul, e.shanghai);
            && cost.Gas? && cost.value <= m.gasLimit && run == evm(Launched(w, m), m, m.gasLimit - cost.value)
            && Owes(Launched(w, m), m, m.gasLimit - cost.value, run)
    ensures m.value < U256 && m.value <= Balance(w, m.from)
    ensures Execute(e, evm, w, pool, m) == Settle(e, pool, m, run)
  {
    var cost := IntrinsicCost(m.data, m.accessList, m.to.None?, e.homestead, e.istanbul, e.shanghai);
    run := evm(Launched(w, m), m, m.gasLimit - cost.value);
    assert Owes(Launched(w, m), m, m.gasLimit - cost.value, run);
  }

  /** What a message that was applied comes to: its gas bought, its run, its settlement. */
  lemma InParts(e: Env, evm: Evm, w: World, pool: nat, m: Message) returns (run: Run)
    requires !m.isDeposit && m.mint.None? && Apply(e, evm, w, pool, m).Applied?
    ensures PreCheck(e, w, pool, m).Ok?
    ensures var check := PreCheck(e, w, pool, m);
            var cost := IntrinsicCost(m.data, m.accessList, m.to.None?, e.homestead, e.istanbul, e.shanghai);
            && cost.Gas? && cost.value <= m.gasLimit && run == evm(Launched(check.world, m), m, m.gasLimit - cost.value)
            && Owes(Launched(check.world, m), m, m.gasLimit - cost.value, run) && m.value <= Balance(check.world, m.from)
            && var s := Settle(e, check.pool, m, run);
              s.Done? && Apply(e, evm, w, pool, m) == Applied(s.world, s.pool, s.used, s.refund, s.failed, false)
  {
    var check := PreCheck(e, w, pool, m);
    run := Ran(e, evm, check.world, check.pool, m);
  }

  lemma SettleKeepsNonces(e: Env, pool: nat, m: Message, run: Run)
    requires run.gasLeft <= m.gasLimit && Settle(e, pool, m, run).Done?
    ensures var w := Settle(e, pool, m, run).world; w.nonces == run.world.nonces && w.contracts == run.world.contracts && w.rest == run.world.rest
  {
  }

  /** What passing the checks says about nonces. */
  lemma CheckedNonce(e: Env, w: World, pool: nat, m: Message)
    requires !m.isDeposit && PreCheck(e, w, pool, m).Ok?
    ensures m.nonce == Nonce(w, m.from) < MAX_U64 && PreCheck(e, w, pool, m).world.nonces == w.nonces
  {
  }

  lemma NonceUsed(e: Env, evm: Evm, w: World, pool: nat, m: Message)
    requires !m.isDeposit && m.mint.None? && Apply(e, evm, w, pool, m).Applied?
    ensures m.nonce == Nonce(w, m.from) < Nonce(Apply(e, evm, w, pool, m).world, m.from)
  {
    var run := InParts(e, evm, w, pool, m);
    var check := PreCheck(e, w, pool, m);
    CheckedNonce(e, w, pool, m);
    SettleKeepsNonces(e, check.pool, m, run);
    LaunchedNonce(check.world, m, run);
  }

  /** A call's nonce is used before its run, a creation's by it. */
  lemma LaunchedNonce(w: World, m: Message, run: Run)
    requires Nonce(w, m.from) + 1 < U64 && m.value <= Balance(w, m.from)
    requires exists g: nat :: Owes(Launched(w, m), m, g, run)
    ensures Nonce(run.world, m.from) > Nonce(w, m.from)
  {
  }

  /** A transaction that is applied uses up its nonce: neither a call nor a creation can be applied again in any
      later state, whatever the rules and the pool are by then. */
  lemma NoReplay(e: Env, evm: Evm, w: World, pool: nat, tx: Transaction, e': Env, evm': Evm, w': World, pool': nat)
    requires tx.sender.Some? && !tx.pricing.Deposit? && Apply(e, evm, w, pool, BlockMessage(e, tx).value).Applied?
    requires Nonce(w', tx.sender.value) >= Nonce(Apply(e, evm, w, pool, BlockMessage(e, tx).value).world, tx.sender.value)
    ensures Apply(e', evm', w', pool', BlockMessage(e', tx).value) == Rejected(NonceTooLow)
  {
    MessageOf(e, tx);
    MessageOf(e', tx);
    NonceUsed(e, evm, w, pool, BlockMessage(e, tx).value);
  }
}
