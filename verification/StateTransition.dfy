/** Applying one message: checks, gas purchase, execution, refunds and fees. The EVM is a
    parameter, constrained only by what it owes its caller. */
module StateTransitions {
  import opened Words
  import opened Options
  import opened Accounts
  import opened IntrinsicGases

  const MAX_INIT_CODE_SIZE: nat := 49152
  const BLOB_GAS_PER_BLOB: nat := 131072
  const REFUND_QUOTIENT: nat := 2
  const REFUND_QUOTIENT_EIP3529: nat := 5

  /** Which rules apply, the fees of the block, and the accounts fees go to. */
  datatype Env = Env(
    homestead: bool, istanbul: bool, london: bool, shanghai: bool, cancun: bool, merge: bool,
    optimism: bool, bedrock: bool, regolith: bool,
    baseFee: nat, blobBaseFee: nat, coinbase: Address, baseFeeRecipient: Address, l1FeeRecipient: Address)
  {
    predicate OptimismRegolith() {
      optimism && regolith
    }

    /** The rule sets of a block count these only after the merge. */
    predicate RulesRegolith() {
      merge && optimism && regolith
    }

    predicate RulesBedrock() {
      merge && optimism && bedrock
    }

    function RefundQuotient(): nat {
      if london then REFUND_QUOTIENT_EIP3529 else REFUND_QUOTIENT
    }
  }

  datatype Message = Message(
    from: Address, to: Option<Address>, nonce: nat, value: nat, gasLimit: nat,
    gasPrice: nat, gasFeeCap: nat, gasTipCap: nat, data: Data, accessList: AccessList,
    // Whether each blob hash has a valid version; none for a message without blobs.
    blobHashes: Option<seq<bool>>, blobFeeCap: nat,
    isSystem: bool, isDeposit: bool, mint: Option<nat>,
    // What the block's L1 cost function charges for this message, if anything.
    l1Cost: Option<nat>)
  {
    function BlobGas(): nat {
      if blobHashes.Some? then |blobHashes.value| * BLOB_GAS_PER_BLOB else 0
    }
  }

  datatype Error =
    | GasLimitReached | NonceTooHigh | NonceTooLow | NonceMax | SenderNoEOA | FeeCapVeryHigh | TipVeryHigh
    | TipAboveFeeCap | FeeCapTooLow | BlobTxCreate | MissingBlobHashes | InvalidBlobHash | BlobFeeCapTooLow
    | InsufficientFunds | SystemTxNotSupported | IntrinsicOverflow | IntrinsicGasTooLow
    | InsufficientFundsForTransfer | MaxInitCodeSizeExceeded | GasCostOverflow | L1CostOverflow | MintOverflow

  /** What an execution leaves: the new state, unspent gas, the refund counter, and whether it failed. */
  datatype Run = Run(world: World, gasLeft: nat, refund: nat, failed: bool)

  ghost predicate ValidWorld(w: World) {
    && (forall a | a in w.balances :: w.balances[a] < U256)
    && (forall a | a in w.nonces :: w.nonces[a] < U64)
  }

  /** What the EVM owes for one run: it spends no more gas than it is given, keeps words in range,
      neither creates nor destroys ether, and never takes back a nonce of the sender; a creation, which
      has not had one yet, uses the next. */
  ghost predicate Owes(w: World, m: Message, g: nat, run: Run) {
    && run.gasLeft <= g
    && (ValidWorld(w) ==> ValidWorld(run.world))
    && (ValidWorld(w) && Total(w) < U256 ==> Total(run.world) == Total(w))
    && Nonce(run.world, m.from) >= Nonce(w, m.from)
    && (m.to.None? && m.value <= Balance(w, m.from) && Nonce(w, m.from) + 1 < U64 ==> Nonce(run.world, m.from) > Nonce(w, m.from))
  }

  ghost predicate Honest(evm: (World, Message, nat) -> Run) {
    forall w: World, m: Message, g: nat :: Owes(w, m, g, evm(w, m, g))
  }

  /** The least a run does to the state. */
  function Touched(w: World, m: Message): World {
    if m.to.None? && Nonce(w, m.from) + 1 < U64 then BumpNonce(w, m.from) else w
  }

  type Evm = f: (World, Message, nat) -> Run | Honest(f) ghost witness (w, m, g) => Run(Touched(w, m), 0, 0, true)

  // ---- Transactions ----

  datatype Transaction = Transaction(
    sender: Option<Address>, to: Option<Address>, nonce: nat, value: nat, gas: nat, data: Data, accessList: AccessList,
    pricing: Pricing, l1Cost: Option<nat>)

  datatype Pricing =
    | Legacy(price: nat)
    | DynamicFee(tipCap: nat, feeCap: nat)
    | Blob(tipCap: nat, feeCap: nat, blobFeeCap: nat, hashes: seq<bool>)
    | Deposit(mint: Option<nat>, isSystem: bool)
  {
    /** What a transaction reports as its gas price before a base fee is known. */
    function GasPrice(): nat {
      match this
      case Legacy(p) => p
      case DynamicFee(_, f) => f
      case Blob(_, f, _, _) => f
      case Deposit(_, _) => 0
    }

    function FeeCap(): nat {
      GasPrice()
    }

    function TipCap(): nat {
      match this
      case Legacy(p) => p
      case DynamicFee(t, _) => t
      case Blob(t, _, _, _) => t
      case Deposit(_, _) => 0
    }
  }

  function Min(a: nat, b: nat): nat {
    if a <= b then a else b
  }

  /** None when the sender cannot be recovered. */
  function TransactionToMessage(tx: Transaction, baseFee: Option<nat>): Option<Message> {
    var p := tx.pricing;
    if tx.sender.None? then None else
    Some(Message(
           tx.sender.value, tx.to, tx.nonce, tx.value, tx.gas,
           if baseFee.Some? then Min(p.TipCap() + baseFee.value, p.FeeCap()) else p.GasPrice(),
           p.FeeCap(), p.TipCap(), tx.data, tx.accessList,
           if p.Blob? then Some(p.hashes) else None, if p.Blob? then p.blobFeeCap else 0,
           p.Deposit? && p.isSystem, p.Deposit?, if p.Deposit? then p.mint else None,
           if p.Deposit? then None else tx.l1Cost))
  }

  // ---- What one message does ----

  /** What the sender must own, and what buying gas takes. */
  function Required(e: Env, m: Message): nat {
    m.gasLimit * m.gasFeeCap + L1Charge(e, m) + m.value + (if e.cancun then m.BlobGas() * m.blobFeeCap else 0)
  }

  function Charged(e: Env, m: Message): nat {
    m.gasLimit * m.gasPrice + L1Charge(e, m) + BlobFee(e, m)
  }

  function L1Charge(e: Env, m: Message): nat {
    if e.optimism && m.l1Cost.Some? then m.l1Cost.value else 0
  }

  function BlobFee(e: Env, m: Message): nat {
    if e.cancun then m.BlobGas() * e.blobBaseFee else 0
  }

  /** The first rule a message breaks before any gas is bought. */
  function Objection(e: Env, w: World, m: Message): Option<Error> {
    if Nonce(w, m.from) < m.nonce then Some(NonceTooHigh)
    else if Nonce(w, m.from) > m.nonce then Some(NonceTooLow)
    else if Nonce(w, m.from) + 1 >= U64 then Some(NonceMax)
    else if m.from in w.contracts then Some(SenderNoEOA)
    else FeeObjection(e, m)
  }

  function FeeObjection(e: Env, m: Message): Option<Error> {
    if e.london && m.gasFeeCap >= U256 then Some(FeeCapVeryHigh)
    else if e.london && m.gasTipCap >= U256 then Some(TipVeryHigh)
    else if e.london && m.gasFeeCap < m.gasTipCap then Some(TipAboveFeeCap)
    else if e.london && m.gasFeeCap < e.baseFee then Some(FeeCapTooLow)
    else BlobObjection(e, m)
  }

  function BlobObjection(e: Env, m: Message): Option<Error> {
    if m.blobHashes.Some? && m.to.None? then Some(BlobTxCreate)
    else if m.blobHashes.Some? && m.blobHashes.value == [] then Some(MissingBlobHashes)
    else if m.blobHashes.Some? && false in m.blobHashes.value then Some(InvalidBlobHash)
    else if e.cancun && m.BlobGas() > 0 && m.blobFeeCap < e.blobBaseFee then Some(BlobFeeCapTooLow)
    else None
  }

  datatype Check = Ok(world: World, pool: nat) | Bad(error: Error, pool: nat)

  /** The checks before execution, with gas bought or, for a deposit, set aside. */
  function PreCheck(e: Env, w: World, pool: nat, m: Message): Check {
    if m.isDeposit then
      if m.isSystem then
        if e.OptimismRegolith() then Bad(SystemTxNotSupported, pool) else Ok(w, pool)
      else if pool < m.gasLimit then Bad(GasLimitReached, pool) else Ok(w, pool - m.gasLimit)
    else if Objection(e, w, m).Some? then Bad(Objection(e, w, m).value, pool)
    else if Required(e, m) >= U256 || Balance(w, m.from) < Required(e, m) then Bad(InsufficientFunds, pool)
    else if pool < m.gasLimit then Bad(GasLimitReached, pool)
    else Ok(SubBalance(w, m.from, Charged(e, m) % U256), pool - m.gasLimit)
  }

  datatype Inner = Done(world: World, pool: nat, used: nat, refund: nat, failed: bool) | Fail(error: Error, pool: nat)

  /** What still stands in the way of a message whose gas is bought. */
  function Obstacle(e: Env, w: World, m: Message, cost: GasResult): Option<Error> {
    if cost.GasUintOverflow? then Some(IntrinsicOverflow)
    else if m.gasLimit < cost.value then Some(IntrinsicGasTooLow)
    else if m.value >= U256 || (m.value != 0 && Balance(w, m.from) < m.value) then Some(InsufficientFundsForTransfer)
    else if e.shanghai && m.to.None? && |m.data| > MAX_INIT_CODE_SIZE then Some(MaxInitCodeSizeExceeded)
    else None
  }

  /** A message that passed the checks: intrinsic gas, the last checks, execution, settlement. */
  ghost function Execute(e: Env, evm: Evm, w: World, pool: nat, m: Message): Inner {
    var cost := IntrinsicCost(m.data, m.accessList, m.to.None?, e.homestead, e.istanbul, e.shanghai);
    var error := Obstacle(e, w, m, cost);
    if error.Some? then Fail(error.value, pool)
    else Settle(e, pool, m, evm(if m.to.None? then w else BumpNonce(w, m.from), m, m.gasLimit - cost.value))
  }

  function Refund(e: Env, m: Message, run: Run): nat
    requires run.gasLeft <= m.gasLimit
  {
    Min((m.gasLimit - run.gasLeft) / e.RefundQuotient(), run.refund)
  }

  /** Refunds and fees after execution, for the gas left over. */
  function Settle(e: Env, pool: nat, m: Message, run: Run): Inner
    requires run.gasLeft <= m.gasLimit
  {
    if m.isDeposit && !e.RulesRegolith() then
      Done(run.world, pool, if m.isSystem then 0 else m.gasLimit, 0, run.failed)
    else
      var refund := Refund(e, m, run);
      var left := run.gasLeft + refund;
      var used := m.gasLimit - left;
      var w := AddBalance(run.world, m.from, left * m.gasPrice % U256);
      if m.isDeposit then Done(w, pool + left, used, refund, run.failed)
      else PayFees(e, w, pool + left, m, used, refund, run.failed)
  }

  function EffectiveTip(e: Env, m: Message): nat {
    if e.london then (if m.gasFeeCap < e.baseFee then 0 else Min(m.gasTipCap, m.gasFeeCap - e.baseFee)) else m.gasPrice
  }

  function PayFees(e: Env, w: World, pool: nat, m: Message, used: nat, refund: nat, failed: bool): Inner {
    Pay(e, w, pool, used * (EffectiveTip(e, m) % U256) % U256, used * e.baseFee, m.l1Cost, used, refund, failed)
  }

  /** The tip goes to the block's beneficiary; on a Bedrock chain the base fee and the L1 cost
      go to their own recipients instead of being burnt. */
  function Pay(e: Env, w: World, pool: nat, tip: nat, base: nat, l1Cost: Option<nat>, used: nat, refund: nat, failed: bool): Inner {
    var w1 := AddBalance(w, e.coinbase, tip);
    if !e.RulesBedrock() then Done(w1, pool, used, refund, failed)
    else if base >= U256 then Fail(GasCostOverflow, pool)
    else
      var w2 := AddBalance(w1, e.baseFeeRecipient, base);
      if l1Cost.None? then Done(w2, pool, used, refund, failed)
      else if l1Cost.value >= U256 then Fail(L1CostOverflow, pool)
      else Done(AddBalance(w2, e.l1FeeRecipient, l1Cost.value), pool, used, refund, failed)
  }

  /** `aborted` marks a deposit whose message failed but which is included all the same. */
  datatype Outcome =
    | Applied(world: World, pool: nat, used: nat, refund: nat, failed: bool, aborted: bool)
    | Rejected(error: Error)

  function Minted(w: World, m: Message): World {
    if m.mint.Some? then AddBalance(w, m.from, m.mint.value) else w
  }

  ghost function Attempt(e: Env, evm: Evm, w: World, pool: nat, m: Message): Inner {
    var check := PreCheck(e, w, pool, m);
    if check.Bad? then Fail(check.error, check.pool) else Execute(e, evm, check.world, check.pool, m)
  }

  /** The whole message. A deposit survives every failure but the block's gas limit: its mint
      stays, its nonce advances, and it is charged in full. */
  ghost function Apply(e: Env, evm: Evm, w: World, pool: nat, m: Message): Outcome {
    if m.mint.Some? && m.mint.value >= U256 then Rejected(MintOverflow) else
    var minted := Minted(w, m);
    match Attempt(e, evm, minted, pool, m)
    case Done(w', p, used, refund, failed) => Applied(w', p, used, refund, failed, false)
    case Fail(error, p) =>
      if m.isDeposit && error != GasLimitReached then
        Applied(BumpNonce(minted, m.from), p, if m.isSystem && !e.regolith then 0 else m.gasLimit, 0, true, true)
      else Rejected(error)
  }

  // ---- Gas ----

  /** What a message did to a pool that already gave up its limit. */
  ghost predicate Settled(e: Env, m: Message, pool: nat, r: Inner) {
    && (r.Done? ==> r.used <= m.gasLimit)
    && (r.Done? && m.isDeposit && !e.RulesRegolith() ==> r.pool == pool && r.used == if m.isSystem then 0 else m.gasLimit)
    && (r.Done? && !(m.isDeposit && !e.RulesRegolith()) ==> r.pool + r.used == pool + m.gasLimit)
    && (r.Fail? && m.isDeposit ==> r.pool == pool && r.error != GasLimitReached)
  }

  /** The gas a message takes from the pool it drew its limit from is the gas it reports. */
  lemma SettlePool(e: Env, pool: nat, m: Message, run: Run)
    requires run.gasLeft <= m.gasLimit
    ensures Settled(e, m, pool, Settle(e, pool, m, run))
  {
    assert Refund(e, m, run) <= m.gasLimit - run.gasLeft;
  }

  lemma ExecutePool(e: Env, evm: Evm, w: World, pool: nat, m: Message)
    ensures Settled(e, m, pool, Execute(e, evm, w, pool, m))
  {
    var cost := IntrinsicCost(m.data, m.accessList, m.to.None?, e.homestead, e.istanbul, e.shanghai);
    if Obstacle(e, w, m, cost).None? {
      SettlePool(e, pool, m, evm(if m.to.None? then w else BumpNonce(w, m.from), m, m.gasLimit - cost.value));
    }
  }

  /** A system deposit with a gas limit that cannot run although Regolith is active: on an Optimism
      chain because such deposits are no longer supported, elsewhere for an obstacle of its own. */
  ghost predicate Unpaid(e: Env, w: World, m: Message) {
    var cost := IntrinsicCost(m.data, m.accessList, m.to.None?, e.homestead, e.istanbul, e.shanghai);
    && m.isDeposit && m.isSystem && e.regolith && m.gasLimit > 0
    && (e.optimism || Obstacle(e, Minted(w, m), m, cost).Some?)
  }

  /** The pool falls by exactly the gas reported, except for a system deposit that cannot run once
      Regolith is active: it is charged its limit although it never drew on the pool. */
  lemma PoolPays(e: Env, evm: Evm, w: World, pool: nat, m: Message)
    ensures var r := Apply(e, evm, w, pool, m);
            r.Applied? ==>
              && r.pool <= pool && r.used <= m.gasLimit && (r.aborted ==> m.isDeposit)
              && (pool - r.pool == r.used <==> !Unpaid(e, w, m))
  {
    var check := PreCheck(e, Minted(w, m), pool, m);
    if check.Ok? {
      ExecutePool(e, evm, check.world, check.pool, m);
    }
  }

  const SYSTEM_DEPOSIT := Message(1, Some(2), 0, 0, 100, 0, 0, 0, [], [], None, 0, true, true, None, None)

  /** Such a deposit: it reports a hundred units of gas that no pool gave. */
  lemma SystemDepositUnpaid(e: Env, evm: Evm, w: World, pool: nat)
    requires e.optimism && e.regolith
    ensures var r := Apply(e, evm, w, pool, SYSTEM_DEPOSIT); r.Applied? && r.pool == pool && r.used == 100
  {
  }

  /** What a message asks of the pool before it runs. */
  function PoolNeed(m: Message): nat {
    if m.isDeposit && m.isSystem then 0 else m.gasLimit
  }

  lemma ExecuteShift(e: Env, evm: Evm, w: World, p: nat, q: nat, m: Message)
    ensures var a, b := Execute(e, evm, w, p, m), Execute(e, evm, w, q, m);
            && (a.Done? <==> b.Done?)
            && (a.Done? ==> a.pool >= p && b == Done(a.world, a.pool - p + q, a.used, a.refund, a.failed))
            && (a.Fail? && m.isDeposit ==> a.pool == p && b == Fail(a.error, q))
            && (a.Fail? ==> b.error == a.error && a.error != GasLimitReached)
  {
  }

  lemma PreCheckShift(e: Env, w: World, p: nat, q: nat, m: Message)
    requires PreCheck(e, w, p, m).Ok? || m.isDeposit
    ensures var a := PreCheck(e, w, p, m);
            && (a.Ok? ==> p - a.pool == PoolNeed(m))
            && (a.Ok? ==> PreCheck(e, w, q, m) == if q >= PoolNeed(m) then Ok(a.world, q - PoolNeed(m)) else Bad(GasLimitReached, q))
            && (a.Bad? && a.error != GasLimitReached ==> a.pool == p && m.isSystem && PreCheck(e, w, q, m) == Bad(a.error, q))
  {
  }

  lemma AttemptShift(e: Env, evm: Evm, w: World, p: nat, q: nat, m: Message)
    requires var a := Attempt(e, evm, w, p, m); a.Done? || (m.isDeposit && a.error != GasLimitReached)
    ensures var a, b := Attempt(e, evm, w, p, m), Attempt(e, evm, w, q, m);
            && PoolNeed(m) <= p && p - PoolNeed(m) <= a.pool
            && (q < PoolNeed(m) ==> b == Fail(GasLimitReached, q))
            && (q >= PoolNeed(m) ==> b == if a.Done? then Done(a.world, a.pool - p + q, a.used, a.refund, a.failed)
                                          else Fail(a.error, a.pool - p + q))
  {
    PreCheckShift(e, w, p, q, m);
    var check := PreCheck(e, w, p, m);
    if check.Ok? && q >= PoolNeed(m) {
      ExecuteShift(e, evm, check.world, check.pool, check.pool - p + q, m);
    } else if check.Ok? {
      ExecuteShift(e, evm, check.world, check.pool, check.pool, m);
    }
  }

  /** The pool only decides whether a message fits: with enough gas for it, any other pool gives
      the same result and pays the same; with less, the message is rejected for the gas limit. */
  lemma PoolShift(e: Env, evm: Evm, w: World, p: nat, q: nat, m: Message)
    ensures var r := Apply(e, evm, w, p, m);
            r.Applied? ==>
              && PoolNeed(m) <= p && p - PoolNeed(m) <= r.pool <= p
              && Apply(e, evm, w, q, m) ==
                 if q >= PoolNeed(m) then r.(pool := q - (p - r.pool)) else Rejected(GasLimitReached)
  {
    if Apply(e, evm, w, p, m).Applied? {
      PoolPays(e, evm, w, p, m);
      AttemptShift(e, evm, Minted(w, m), p, q, m);
    }
  }

  // ---- Ether ----

  /** The price a transaction pays never exceeds the cap its balance check uses. */
  lemma PriceWithinCap(tx: Transaction, baseFee: Option<nat>)
    ensures var m := TransactionToMessage(tx, baseFee);
            m.Some? ==>
              && m.value.gasPrice <= m.value.gasFeeCap
              && (m.value.isDeposit ==> m.value.gasPrice == 0)
              && (!m.value.isDeposit ==> m.value.mint.None?)
  {
  }

  lemma ChargeBound(e: Env, m: Message)
    requires m.gasPrice <= m.gasFeeCap && (e.cancun && m.BlobGas() > 0 ==> e.blobBaseFee <= m.blobFeeCap)
    ensures Charged(e, m) + m.value <= Required(e, m)
  {
    MulMono(m.gasLimit, m.gasPrice, m.gasFeeCap);
    if e.cancun && m.BlobGas() > 0 {
      MulMono(m.BlobGas(), e.blobBaseFee, m.blobFeeCap);
    }
  }

  lemma Fits(x: nat)
    requires x < U256
    ensures x % U256 == x
  {
  }

  /** Passing the checks means owning what is required and losing what is charged. */
  lemma Passed(e: Env, w: World, pool: nat, m: Message, charged: nat)
    requires !m.isDeposit && PreCheck(e, w, pool, m).Ok? && charged == Charged(e, m)
    ensures Required(e, m) <= Balance(w, m.from) && Required(e, m) < U256
    ensures e.cancun && m.BlobGas() > 0 ==> e.blobBaseFee <= m.blobFeeCap
    ensures PreCheck(e, w, pool, m).world == SubBalance(w, m.from, charged % U256)
  {
  }

  /** A message that passes the checks is charged at most what was checked less its value, so
      the charge fits a word, the deduction does not underflow, and the value is still there. */
  lemma ChargeCovered(e: Env, w: World, pool: nat, m: Message)
    requires !m.isDeposit && m.gasPrice <= m.gasFeeCap && PreCheck(e, w, pool, m).Ok? && Balance(w, m.from) < U256
    ensures Charged(e, m) + m.value <= Required(e, m) <= Balance(w, m.from)
    ensures var w1 := PreCheck(e, w, pool, m).world;
            && w1 == SubBalance(w, m.from, Charged(e, m))
            && Balance(w1, m.from) == Balance(w, m.from) - Charged(e, m) >= m.value
            && Total(w1) == Total(w) - Charged(e, m)
  {
    var charged, required := Charged(e, m), Required(e, m);
    Passed(e, w, pool, m, charged);
    assert charged + m.value <= required by {
      ChargeBound(e, m);
    }
    Fits(charged);
    SubTotal(w, m.from, charged);
    Fits(Balance(w, m.from) - charged);
  }

  /** So the later check that the sender can pay the value never fails. */
  lemma TransferCovered(e: Env, evm: Evm, w: World, pool: nat, m: Message)
    requires !m.isDeposit && m.gasPrice <= m.gasFeeCap && PreCheck(e, w, pool, m).Ok? && Balance(w, m.from) < U256
    ensures var r := Attempt(e, evm, w, pool, m); !(r.Fail? && r.error == InsufficientFundsForTransfer)
  {
    ChargeCovered(e, w, pool, m);
  }

  lemma AddKeeps(w: World, a: Address, amount: nat)
    requires ValidWorld(w) && Total(w) + amount < U256
    ensures var w1 := AddBalance(w, a, amount); ValidWorld(w1) && Total(w1) == Total(w) + amount
  {
    BalanceBelowTotal(w, a);
    AddTotal(w, a, amount);
  }

  /** What the sender ends up paying for the gas used, and what of it reaches an account. */
  function Spent(e: Env, m: Message, used: nat): nat {
    used * m.gasPrice + L1Charge(e, m) + BlobFee(e, m)
  }

  function Credited(e: Env, m: Message, used: nat): nat {
    used * EffectiveTip(e, m) + if e.RulesBedrock() then used * e.baseFee + L1Charge(e, m) else 0
  }

  /** The message a block makes of a transaction: base fees exist from London on. */
  function BlockMessage(e: Env, tx: Transaction): Option<Message> {
    TransactionToMessage(tx, if e.london then Some(e.baseFee) else None)
  }

  /** The effective price is the tip plus the base fee. */
  lemma TipPlusBaseFee(e: Env, tx: Transaction)
    requires BlockMessage(e, tx).Some? && !BlockMessage(e, tx).value.isDeposit
    requires e.london ==> BlockMessage(e, tx).value.gasFeeCap >= e.baseFee
    ensures var m := BlockMessage(e, tx).value;
            m.gasPrice == EffectiveTip(e, m) + if e.london then e.baseFee else 0
  {
  }

  /** Credits never exceed what the gas was bought for, so none of them overflows. */
  lemma CreditsBound(e: Env, m: Message, used: nat, left: nat)
    requires m.gasPrice == EffectiveTip(e, m) + if e.london then e.baseFee else 0
    requires e.RulesBedrock() ==> e.london
    requires used + left == m.gasLimit
    ensures left * m.gasPrice + used * m.gasPrice == m.gasLimit * m.gasPrice
    ensures left * m.gasPrice + Credited(e, m, used) <= m.gasLimit * m.gasPrice + L1Charge(e, m)
  {
    Distribute(m.gasPrice, left, used);
    CreditsOf(e, m, used);
  }

  /** After Bedrock everything paid for the gas used is credited. */
  lemma CreditsOf(e: Env, m: Message, used: nat)
    requires m.gasPrice == EffectiveTip(e, m) + if e.london then e.baseFee else 0
    requires e.RulesBedrock() ==> e.london
    ensures Credited(e, m, used) <= used * m.gasPrice + L1Charge(e, m)
    ensures e.RulesBedrock() ==> Credited(e, m, used) == used * m.gasPrice + L1Charge(e, m)
  {
    Distribute(used, EffectiveTip(e, m), if e.london then e.baseFee else 0);
  }

  lemma Distribute(a: nat, b: nat, c: nat)
    ensures a * (b + c) == a * b + a * c == (b + c) * a
  {
  }

  lemma PayTotal(e: Env, w: World, pool: nat, tip: nat, base: nat, l1Cost: Option<nat>, used: nat, refund: nat, failed: bool)
    requires ValidWorld(w)
    requires var paid := tip + (if e.RulesBedrock() then base + (if l1Cost.Some? then l1Cost.value else 0) else 0); Total(w) + paid < U256
    ensures var r := Pay(e, w, pool, tip, base, l1Cost, used, refund, failed);
            && r.Done? && r.used == used && ValidWorld(r.world)
            && Total(r.world) == Total(w) + tip + (if e.RulesBedrock() then base + (if l1Cost.Some? then l1Cost.value else 0) else 0)
  {
    var w1 := AddBalance(w, e.coinbase, tip);
    AddKeeps(w, e.coinbase, tip);
    if e.RulesBedrock() {
      AddKeeps(w1, e.baseFeeRecipient, base);
      if l1Cost.Some? {
        AddKeeps(AddBalance(w1, e.baseFeeRecipient, base), e.l1FeeRecipient, l1Cost.value);
      }
    }
  }

  lemma FeesTotal(e: Env, w: World, pool: nat, m: Message, used: nat, refund: nat, failed: bool)
    requires ValidWorld(w) && Total(w) + Credited(e, m, used) < U256 && EffectiveTip(e, m) < U256
    ensures var r := PayFees(e, w, pool, m, used, refund, failed);
            r.Done? && r.used == used && ValidWorld(r.world) && Total(r.world) == Total(w) + Credited(e, m, used)
  {
    Fits(EffectiveTip(e, m));
    Fits(used * EffectiveTip(e, m));
    PayTotal(e, w, pool, used * EffectiveTip(e, m), used * e.baseFee, m.l1Cost, used, refund, failed);
  }

  lemma SettlePays(e: Env, pool: nat, m: Message, run: Run, left: nat, back: nat)
    requires !m.isDeposit && run.gasLeft <= m.gasLimit && left == run.gasLeft + Refund(e, m, run) <= m.gasLimit
    requires back == left * m.gasPrice % U256
    ensures Settle(e, pool, m, run) ==
            PayFees(e, AddBalance(run.world, m.from, back), pool + left, m, m.gasLimit - left, Refund(e, m, run), run.failed)
  {
  }

  /** Fee settlement gives back the unspent gas and credits the rest. */
  lemma SettleTotal(e: Env, pool: nat, m: Message, run: Run, left: nat, used: nat, back: nat)
    requires !m.isDeposit && run.gasLeft <= m.gasLimit && ValidWorld(run.world) && back == left * m.gasPrice
    requires left == run.gasLeft + Refund(e, m, run) && used + left == m.gasLimit
    requires Total(run.world) + back + Credited(e, m, used) < U256 && EffectiveTip(e, m) < U256
    ensures var r := Settle(e, pool, m, run);
            && r.Done? && r.used == used && ValidWorld(r.world)
            && Total(r.world) == Total(run.world) + back + Credited(e, m, used)
  {
    Fits(back);
    SettlePays(e, pool, m, run, left, back);
    var w := AddBalance(run.world, m.from, back);
    assert ValidWorld(w) && Total(w) == Total(run.world) + back by {
      AddKeeps(run.world, m.from, back);
    }
    FeesTotal(e, w, pool + left, m, used, Refund(e, m, run), run.failed);
  }

  lemma BumpKeeps(w: World, a: Address)
    requires ValidWorld(w)
    ensures ValidWorld(BumpNonce(w, a)) && Total(BumpNonce(w, a)) == Total(w)
  {
  }

  /** The run behind a finished message: it kept the total and left no more gas than it had. */
  lemma ExecuteRun(e: Env, evm: Evm, w: World, pool: nat, m: Message) returns (run: Run)
    requires ValidWorld(w) && Total(w) < U256 && Execute(e, evm, w, pool, m).Done?
    ensures run.gasLeft <= m.gasLimit && ValidWorld(run.world) && Total(run.world) == Total(w)
    ensures Execute(e, evm, w, pool, m) == Settle(e, pool, m, run)
  {
    BumpKeeps(w, m.from);
    var cost := IntrinsicCost(m.data, m.accessList, m.to.None?, e.homestead, e.istanbul, e.shanghai);
    run := evm(if m.to.None? then w else BumpNonce(w, m.from), m, m.gasLimit - cost.value);
  }

  lemma SettleBalances(e: Env, pool: nat, m: Message, run: Run)
    requires !m.isDeposit && run.gasLeft <= m.gasLimit && ValidWorld(run.world)
    requires Total(run.world) + m.gasLimit * m.gasPrice + L1Charge(e, m) < U256 && m.gasPrice < U256
    requires m.gasPrice == EffectiveTip(e, m) + if e.london then e.baseFee else 0
    requires e.RulesBedrock() ==> e.london
    ensures var r := Settle(e, pool, m, run);
            && r.Done? && r.used <= m.gasLimit && ValidWorld(r.world)
            && Total(r.world) + r.used * m.gasPrice == Total(run.world) + m.gasLimit * m.gasPrice + Credited(e, m, r.used)
  {
    RefundBound(e, m, run);
    var left := run.gasLeft + Refund(e, m, run);
    var used := m.gasLimit - left;
    CreditsBound(e, m, used, left);
    SettleAmounts(e, pool, m, run, left, used, left * m.gasPrice, used * m.gasPrice, m.gasLimit * m.gasPrice);
  }

  lemma SettleAmounts(e: Env, pool: nat, m: Message, run: Run, left: nat, used: nat, back: nat, spent: nat, bought: nat)
    requires !m.isDeposit && run.gasLeft <= m.gasLimit && ValidWorld(run.world) && back == left * m.gasPrice
    requires left == run.gasLeft + Refund(e, m, run) && used + left == m.gasLimit && m.gasPrice < U256 && EffectiveTip(e, m) <= m.gasPrice
    requires back + spent == bought && back + Credited(e, m, used) <= bought + L1Charge(e, m)
    requires Total(run.world) + bought + L1Charge(e, m) < U256
    ensures var r := Settle(e, pool, m, run);
            && r.Done? && r.used == used && ValidWorld(r.world)
            && Total(r.world) + spent == Total(run.world) + bought + Credited(e, m, used)
  {
    SettleTotal(e, pool, m, run, left, used, back);
  }

  lemma RefundBound(e: Env, m: Message, run: Run)
    requires run.gasLeft <= m.gasLimit
    ensures run.gasLeft + Refund(e, m, run) <= m.gasLimit
  {
  }

  lemma ChargeKeeps(e: Env, w: World, pool: nat, m: Message)
    requires !m.isDeposit && PreCheck(e, w, pool, m).Ok? && ValidWorld(w)
    ensures ValidWorld(PreCheck(e, w, pool, m).world)
  {
  }

  /** Ether accounting of a transaction that is not a deposit: the total falls by what the
      sender spends and no one is credited with. */
  lemma EtherAccounting(e: Env, evm: Evm, w: World, pool: nat, tx: Transaction)
    requires BlockMessage(e, tx).Some? && !BlockMessage(e, tx).value.isDeposit
    requires ValidWorld(w) && Total(w) < U256 && (e.RulesBedrock() ==> e.london) && BlockMessage(e, tx).value.gasPrice < U256
    ensures var m := BlockMessage(e, tx).value;
            var r := Apply(e, evm, w, pool, m);
            r.Applied? ==> ValidWorld(r.world) && Total(r.world) + Spent(e, m, r.used) == Total(w) + Credited(e, m, r.used)
  {
    var m := BlockMessage(e, tx).value;
    if Apply(e, evm, w, pool, m).Rejected? {
      return;
    }
    PriceWithinCap(tx, if e.london then Some(e.baseFee) else None);
    var check := PreCheck(e, w, pool, m);
    BalanceBelowTotal(w, m.from);
    ChargeCovered(e, w, pool, m);
    ChargeKeeps(e, w, pool, m);
    TipPlusBaseFee(e, tx);
    var run := ExecuteRun(e, evm, check.world, check.pool, m);
    SettleBalances(e, check.pool, m, run);
  }

  /** On a post-Bedrock chain only the blob fee leaves circulation. */
  lemma EtherConserved(e: Env, evm: Evm, w: World, pool: nat, tx: Transaction)
    requires BlockMessage(e, tx).Some? && !BlockMessage(e, tx).value.isDeposit
    requires ValidWorld(w) && Total(w) < U256 && e.RulesBedrock() && e.london
    ensures var m := BlockMessage(e, tx).value;
            var r := Apply(e, evm, w, pool, m);
            r.Applied? ==> Total(r.world) + BlobFee(e, m) == Total(w)
  {
    var m := BlockMessage(e, tx).value;
    var r := Apply(e, evm, w, pool, m);
    if r.Rejected? {
      return;
    }
    PriceWithinCap(tx, Some(e.baseFee));
    EtherAccounting(e, evm, w, pool, tx);
    PoolPays(e, evm, w, pool, m);
    ChargeCovered(e, w, pool, m);
    TipPlusBaseFee(e, tx);
    CreditsOf(e, m, r.used);
  }

  // ---- Deposits ----

  /** Nothing but the block's gas limit keeps a deposit with a representable mint out. */
  lemma DepositIncluded(e: Env, evm: Evm, w: World, pool: nat, m: Message)
    requires m.isDeposit && (m.mint.Some? ==> m.mint.value < U256)
    ensures Apply(e, evm, w, pool, m).Rejected? <==> !m.isSystem && pool < m.gasLimit
    ensures Apply(e, evm, w, pool, m).Rejected? ==> Apply(e, evm, w, pool, m).error == GasLimitReached
  {
    var check := PreCheck(e, Minted(w, m), pool, m);
    if check.Ok? {
      ExecutePool(e, evm, check.world, check.pool, m);
    }
  }

  /** A deposit that failed keeps its mint and only advances the nonce. The total grows by exactly
      the mint, and the nonce by exactly one, unless that word wraps. */
  lemma FailedDeposit(e: Env, evm: Evm, w: World, pool: nat, m: Message)
    requires ValidWorld(w) && Apply(e, evm, w, pool, m).Applied? && Apply(e, evm, w, pool, m).aborted
    ensures var w' := Apply(e, evm, w, pool, m).world;
            var mint := if m.mint.Some? then m.mint.value else 0;
            && (Total(w') == Total(w) + mint <==> Balance(w, m.from) + mint < U256)
            && (Nonce(w', m.from) == Nonce(w, m.from) + 1 <==> Nonce(w, m.from) < MAX_U64)
            && w'.contracts == w.contracts && w'.rest == w.rest
            && (forall a | a != m.from :: Balance(w', a) == Balance(w, a) && Nonce(w', a) == Nonce(w, a))
  {
    if m.mint.Some? {
      AddTotal(w, m.from, m.mint.value);
    }
  }

  const FULL_ACCOUNT := World(map[1 := U256 - 1], map[1 := MAX_U64], {}, 0)
  const POOR_DEPOSIT := Message(1, Some(2), 0, 0, 0, 0, 0, 0, [], [], None, 0, false, true, Some(1), None)

  /** Both wrap when an account that is full already receives a deposit too poor to run. */
  lemma DepositWraps(e: Env, evm: Evm)
    ensures var r := Apply(e, evm, FULL_ACCOUNT, 0, POOR_DEPOSIT);
            r.Applied? && r.aborted && Balance(r.world, 1) == 0 && Nonce(r.world, 1) == 0
  {
    assert IntrinsicCost([], [], false, e.homestead, e.istanbul, e.shanghai) == Gas(TX_GAS);
  }

  lemma DepositSettles(e: Env, pool: nat, m: Message, run: Run)
    requires m.isDeposit && m.gasPrice == 0 && run.gasLeft <= m.gasLimit && ValidWorld(run.world) && Total(run.world) < U256
    ensures var r := Settle(e, pool, m, run); r.Done? && ValidWorld(r.world) && Total(r.world) == Total(run.world)
  {
    var left := run.gasLeft + Refund(e, m, run);
    assert left * m.gasPrice % U256 == 0;
    AddKeeps(run.world, m.from, 0);
  }

  lemma DepositRun(e: Env, evm: Evm, w: World, pool: nat, m: Message)
    requires m.isDeposit && m.gasPrice == 0 && ValidWorld(w) && Total(w) < U256 && Attempt(e, evm, w, pool, m).Done?
    ensures var r := Attempt(e, evm, w, pool, m); ValidWorld(r.world) && Total(r.world) == Total(w)
  {
    var check := PreCheck(e, w, pool, m);
    var run := ExecuteRun(e, evm, w, check.pool, m);
    DepositSettles(e, check.pool, m, run);
  }

  /** Any deposit changes the total by exactly its mint, as long as the supply fits a word. */
  lemma DepositEther(e: Env, evm: Evm, w: World, pool: nat, m: Message)
    requires m.isDeposit && m.gasPrice == 0 && ValidWorld(w) && Apply(e, evm, w, pool, m).Applied?
    requires Total(w) + (if m.mint.Some? then m.mint.value else 0) < U256
    ensures var r := Apply(e, evm, w, pool, m);
            ValidWorld(r.world) && Total(r.world) == Total(w) + if m.mint.Some? then m.mint.value else 0
  {
    if m.mint.Some? {
      AddKeeps(w, m.from, m.mint.value);
    }
    var minted := Minted(w, m);
    if Attempt(e, evm, minted, pool, m).Done? {
      DepositRun(e, evm, minted, pool, m);
    } else {
      BumpKeeps(minted, m.from);
    }
  }
}
