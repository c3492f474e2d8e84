/** The unsealed block: opened by an environment message, grown by frags, discarded on the first
    frag that is rejected. */
module UnsealedBlocks {
  import opened Sequences
  import opened Words
  import opened Options
  import opened Accounts
  import opened IntrinsicGases
  import opened StateTransitions
  import opened ApplyMessages
  import opened Frags

  datatype Receipt = Receipt(gasUsed: nat, cumulative: nat, blobGas: nat)

  datatype Frag = Frag(blockNumber: nat, seq_: nat, isLast: bool, txs: seq<Transaction>)

  function BlobGasOf(tx: Transaction): nat {
    if tx.pricing.Blob? then |tx.pricing.hashes| * BLOB_GAS_PER_BLOB else 0
  }

  /** The 64-bit gas counter after the transactions that used `used`. */
  function Counter(start: nat, used: seq<nat>): nat {
    if used == [] then start else (Counter(start, used[..|used| - 1]) + used[|used| - 1]) % U64
  }

  lemma {:induction false} CounterConcat(start: nat, a: seq<nat>, b: seq<nat>)
    ensures Counter(start, a + b) == Counter(Counter(start, a), b)
  {
    if b == [] {
      assert a + b == a;
    } else {
      var n := |b| - 1;
      assert (a + b)[..|a + b| - 1] == a + b[..n];
      CounterConcat(start, a, b[..n]);
    }
  }

  lemma WrapAdd(a: nat, b: nat)
    ensures (a % U64 + b) % U64 == (a + b) % U64
  {
  }

  /** The counter holds the total, modulo 2^64. */
  lemma {:induction false} CounterIsSum(start: nat, used: seq<nat>)
    requires start < U64
    ensures Counter(start, used) == (start + SumOf(used)) % U64
  {
    if used != [] {
      var init, last := used[..|used| - 1], used[|used| - 1];
      CounterIsSum(start, init);
      assert used == init + [last];
      SumConcat(init, [last]);
      WrapAdd(start + SumOf(init), last);
    }
  }

  /** One receipt per applied transaction, made as the counter advances. */
  ghost function Receipts(start: nat, txs: seq<Transaction>, used: seq<nat>): (r: seq<Receipt>)
    requires |used| <= |txs|
    ensures |r| == |used|
    decreases |used|
  {
    if used == [] then [] else
    var n := |used| - 1;
    Receipts(start, txs, used[..n]) + [Receipt(used[n], Counter(start, used), BlobGasOf(txs[n]))]
  }

  /** Each receipt's cumulative gas is the total over the transactions up to its own. */
  lemma {:induction false} ReceiptAt(start: nat, txs: seq<Transaction>, used: seq<nat>, i: nat)
    requires i < |used| <= |txs| && start < U64
    ensures Receipts(start, txs, used)[i] == Receipt(used[i], (start + SumOf(used[..i + 1])) % U64, BlobGasOf(txs[i]))
    decreases |used|
  {
    var n := |used| - 1;
    if i == n {
      assert used[..n + 1] == used;
      CounterIsSum(start, used);
    } else {
      ReceiptAt(start, txs, used[..n], i);
      assert used[..n][..i + 1] == used[..i + 1];
    }
  }

  /** Applies one transaction and takes its gas from the pool. */
  method ApplyTransaction(ghost c: Context, e: Env, evm: Evm, gp: GasPool, world: World, tx: Transaction) returns (r: Outcome)
    requires Follows(c, e, evm) && gp.gas <= MAX_U64
    modifies gp
    ensures r == c.apply(world, old(gp.gas), tx)
    ensures r.Applied? ==> gp.gas == r.pool <= old(gp.gas)
  {
    assert c.apply(world, gp.gas, tx) == ApplyTx(e, evm, world, gp.gas, tx);
    var m := BlockMessage(e, tx);
    if m.None? {
      return Rejected(SenderNoEOA);
    }
    var st := new StateTransition(e, evm, m.value, gp, world);
    ghost var pool := gp.gas;
    r := st.TransitionDb();
    if r.Applied? {
      PoolPays(e, evm, world, pool, m.value);
    }
  }

  /** Where a processing call stands after `used`: what remains to be done gives the whole result. */
  ghost predicate Midway(c: Context, all: Batch, start: nat, txs: seq<Transaction>, used: seq<nat>,
                         world: World, pool: nat, receipts: seq<Receipt>, usedGas: nat)
    requires |used| <= |txs|
  {
    && usedGas == Counter(start, used)
    && receipts == Receipts(start, txs, used)
    && var rest := Process(c, world, pool, txs[|used|..]); all == rest.(used := used + rest.used)
  }

  lemma Advance(c: Context, all: Batch, start: nat, txs: seq<Transaction>, used: seq<nat>,
                world: World, pool: nat, receipts: seq<Receipt>, usedGas: nat, r: Outcome)
    requires |used| < |txs| && Midway(c, all, start, txs, used, world, pool, receipts, usedGas)
    requires r == c.apply(world, pool, txs[|used|])
    ensures r.Rejected? ==> !all.ok && all.used == used
    ensures r.Applied? ==>
              var total := (usedGas + r.used) % U64;
              Midway(c, all, start, txs, used + [r.used], r.world, r.pool,
                     receipts + [Receipt(r.used, total, BlobGasOf(txs[|used|]))], total)
  {
    var rest := txs[|used|..];
    assert rest[0] == txs[|used|] && rest[1..] == txs[|used| + 1..];
    if r.Applied? {
      var more := used + [r.used];
      assert more[..|used| + 1] == more && more[..|used|] == used;
      assert forall i: nat {:trigger used[..i + 1]} | i < |used| :: more[..i + 1] == used[..i + 1];
      var tail := Process(c, r.world, r.pool, rest[1..]);
      assert used + ([r.used] + tail.used) == more + tail.used;
    }
  }

  lemma Arrived(c: Context, all: Batch, start: nat, txs: seq<Transaction>, used: seq<nat>,
                world: World, pool: nat, receipts: seq<Receipt>, usedGas: nat)
    requires |used| == |txs| && Midway(c, all, start, txs, used, world, pool, receipts, usedGas)
    ensures all == Batch(world, pool, used, true)
  {
    assert used + [] == used;
  }

  /** Applies the transactions in order on a fresh pool, adding to the caller's gas counter as it
      goes; the counter keeps what was added even when a later transaction is rejected. */
  method ProcessWithCumulativeGas(ghost c: Context, e: Env, evm: Evm, gasLimit: nat, prologue: World -> World, finalise: World -> World,
                                  statedb: World, txs: seq<Transaction>, counter: nat)
    returns (ok: bool, world: World, receipts: seq<Receipt>, usedGas: nat)
    requires Follows(c, e, evm) && gasLimit <= MAX_U64 && counter < U64
    ensures var b := Process(c, prologue(statedb), gasLimit, txs);
            && ok == b.ok
            && usedGas == Counter(counter, b.used)
            && receipts == Receipts(counter, txs, b.used)
            && (ok ==> world == finalise(b.world))
  {
    var gp := new GasPool(gasLimit);
    world, receipts, usedGas := prologue(statedb), [], counter;
    ghost var all, used: seq<nat> := Process(c, world, gasLimit, txs), [];
    assert txs[0..] == txs && [] + all.used == all.used;
    for i := 0 to |txs|
      invariant fresh(gp) && gp.gas <= MAX_U64 && |used| == i
      invariant Midway(c, all, counter, txs, used, world, gp.gas, receipts, usedGas)
    {
      ghost var pool := gp.gas;
      var r := ApplyTransaction(c, e, evm, gp, world, txs[i]);
      Advance(c, all, counter, txs, used, world, pool, receipts, usedGas, r);
      if r.Rejected? {
        return false, world, receipts, usedGas;
      }
      world := r.world;
      usedGas := (usedGas + r.used) % U64;
      receipts := receipts + [Receipt(r.used, usedGas, BlobGasOf(txs[i]))];
      used := used + [r.used];
    }
    Arrived(c, all, counter, txs, used, world, gp.gas, receipts, usedGas);
    world := finalise(world);
    ok := true;
  }

  // ---- The unsealed block ----

  /** An open block: what its environment fixed, and what its frags have made of it. `base` is the
      state after the parent block. */
  datatype Unsealed = Unsealed(
    number: nat, e: Env, gasLimit: nat, prologue: World -> World, finalise: World -> World, base: World,
    frags: seq<Frag>, last: Option<nat>, receipts: seq<Receipt>, gasUsed: nat, blobGasUsed: nat)

  function TxLists(frags: seq<Frag>): seq<seq<Transaction>> {
    seq(|frags|, i requires 0 <= i < |frags| => frags[i].txs)
  }

  ghost function BlobGas(receipts: seq<Receipt>): seq<nat> {
    seq(|receipts|, i requires 0 <= i < |receipts| => receipts[i].blobGas)
  }

  /** Frags are numbered from zero without gaps, belong to this block, and nothing follows the last. */
  ghost predicate Sequenced(u: Unsealed) {
    && (u.last == if u.frags == [] then None else Some(|u.frags| - 1))
    && (forall i | 0 <= i < |u.frags| :: u.frags[i].seq_ == i && u.frags[i].blockNumber == u.number)
    && (forall i | 0 <= i < |u.frags| - 1 :: !u.frags[i].isLast)
  }

  /** The block is what its accepted frags make of the parent's state: the i-th receipt carries the
      running gas total, and the counters are the full totals. */
  ghost predicate Good(c: Context, u: Unsealed, w: World) {
    && Sequenced(u)
    && c.gasLimit == u.gasLimit && c.prologue == u.prologue && c.finalise == u.finalise
    && var lists := TxLists(u.frags);
      var g := ProcessFrags(c, u.base, lists);
      g.ok && g.world == w && Tallied(u, Flatten(lists), g.used)
  }

  ghost predicate Tallied(u: Unsealed, txs: seq<Transaction>, used: seq<nat>) {
    && |used| == |txs|
    && u.receipts == Receipts(0, txs, used)
    && u.gasUsed == Counter(0, used)
    && u.blobGasUsed == Counter(0, BlobGas(u.receipts))
  }

  predicate IsNextFrag(u: Unsealed, f: Frag)
    requires u.last.Some? ==> u.last.value < |u.frags|
  {
    match u.last
    case None => f.seq_ == 0
    case Some(i) => !u.frags[i].isLast && u.frags[i].seq_ + 1 == f.seq_
  }

  lemma {:induction false} ReceiptsConcat(xs: seq<Transaction>, ys: seq<Transaction>, a: seq<nat>, b: seq<nat>)
    requires |a| == |xs| && |b| <= |ys|
    ensures Receipts(0, xs + ys, a + b) == Receipts(0, xs, a) + Receipts(Counter(0, a), ys, b)
    decreases |b|
  {
    if b == [] {
      assert a + b == a;
      ReceiptsPrefix(xs, ys, a);
    } else {
      var n := |b| - 1;
      assert (a + b)[..|a + b| - 1] == a + b[..n];
      ReceiptsConcat(xs, ys, a, b[..n]);
      CounterConcat(0, a, b);
    }
  }

  lemma {:induction false} ReceiptsPrefix(xs: seq<Transaction>, ys: seq<Transaction>, a: seq<nat>)
    requires |a| <= |xs|
    ensures Receipts(0, xs + ys, a) == Receipts(0, xs, a)
    decreases |a|
  {
    if a != [] {
      ReceiptsPrefix(xs, ys, a[..|a| - 1]);
    }
  }

  ghost function WithFrag(u: Unsealed, f: Frag, used: seq<nat>): Unsealed
    requires |used| <= |f.txs|
  {
    var receipts := Receipts(u.gasUsed, f.txs, used);
    u.(frags := u.frags + [f], last := Some(f.seq_), receipts := u.receipts + receipts,
       gasUsed := Counter(u.gasUsed, used), blobGasUsed := Counter(u.blobGasUsed, BlobGas(receipts)))
  }

  lemma TallyGrows(u: Unsealed, txs: seq<Transaction>, used: seq<nat>, f: Frag, more: seq<nat>)
    requires Tallied(u, txs, used) && |more| == |f.txs|
    ensures Tallied(WithFrag(u, f, more), txs + f.txs, used + more)
  {
    ReceiptsConcat(txs, f.txs, used, more);
    CounterConcat(0, used, more);
    var receipts := Receipts(u.gasUsed, f.txs, more);
    assert BlobGas(u.receipts + receipts) == BlobGas(u.receipts) + BlobGas(receipts);
    CounterConcat(0, BlobGas(u.receipts), BlobGas(receipts));
  }

  /** The next frag carries the next number, and nothing comes after the last. */
  ghost predicate InTurn(u: Unsealed, f: Frag) {
    f.blockNumber == u.number && f.seq_ == |u.frags| && (u.frags != [] ==> !u.frags[|u.frags| - 1].isLast)
  }

  lemma NextInTurn(u: Unsealed, f: Frag)
    requires Sequenced(u)
    ensures f.blockNumber == u.number && IsNextFrag(u, f) <==> InTurn(u, f)
  {
  }

  /** A frag is the next one exactly when the block with it is still numbered without gaps. */
  lemma SequenceGrows(u: Unsealed, f: Frag, used: seq<nat>)
    requires Sequenced(u) && |used| <= |f.txs|
    ensures Sequenced(WithFrag(u, f, used)) <==> f.blockNumber == u.number && IsNextFrag(u, f)
  {
    var v := WithFrag(u, f, used);
    var n := |u.frags|;
    assert v.frags[n] == f && forall i | 0 <= i < n :: v.frags[i] == u.frags[i];
    if Sequenced(v) {
      assert n > 0 ==> !v.frags[n - 1].isLast;
    }
  }

  /** An accepted next frag keeps the block good. */
  lemma GoodGrows(c: Context, u: Unsealed, w: World, f: Frag, b: Batch)
    requires Good(c, u, w) && f.blockNumber == u.number && IsNextFrag(u, f)
    requires b == Process(c, c.prologue(w), c.gasLimit, f.txs) && b.ok
    ensures Good(c, WithFrag(u, f, b.used), c.finalise(b.world))
  {
    var lists := TxLists(u.frags);
    SequenceGrows(u, f, b.used);
    assert TxLists(u.frags + [f]) == lists + [f.txs];
    FragsSnoc(c, u.base, lists, f.txs);
    FlattenSnoc(lists, f.txs);
    TallyGrows(u, Flatten(lists), ProcessFrags(c, u.base, lists).used, f, b.used);
  }

  ghost function GasUsed(receipts: seq<Receipt>): seq<nat> {
    seq(|receipts|, i requires 0 <= i < |receipts| => receipts[i].gasUsed)
  }

  lemma {:induction false} ReceiptsTell(start: nat, txs: seq<Transaction>, used: seq<nat>)
    requires |used| <= |txs|
    ensures GasUsed(Receipts(start, txs, used)) == used
    decreases |used|
  {
    if used != [] {
      var n := |used| - 1;
      ReceiptsTell(start, txs, used[..n]);
      assert used == used[..n] + [used[n]];
      assert GasUsed(Receipts(start, txs, used)) == GasUsed(Receipts(start, txs, used[..n])) + [used[n]];
    }
  }

  /** The open block against the block it stands for: one run over all its transactions reaches the
      open block's state, receipts and gas exactly when, by its own receipts, the gas limit covers
      every transaction's limit on top of the gas drawn before it. */
  lemma OpenBlockReplays(c: Context, settled: World -> bool, u: Unsealed, w: World)
    requires Good(c, u, w) && u.frags != [] && Lawful(c) && Settles(c, settled)
    ensures var txs := Flatten(TxLists(u.frags));
            var b := Process(c, c.prologue(u.base), c.gasLimit, txs);
            && |u.receipts| == |txs|
            && (b.ok <==> WithinLimit(c, c.gasLimit, txs, Drawn(c, txs, GasUsed(u.receipts))))
            && (b.ok ==> Batched(c, u, w, txs, b))
  {
    var lists := TxLists(u.frags);
    ReceiptsTell(0, Flatten(lists), ProcessFrags(c, u.base, lists).used);
    BlockFromFrags(c, settled, u.base, lists);
    if Process(c, c.prologue(u.base), c.gasLimit, Flatten(lists)).ok {
      FragsRefineBlock(c, settled, u.base, lists);
    }
  }

  /** The run `b` of `txs` as one block gives what the open block holds. */
  ghost predicate Batched(c: Context, u: Unsealed, w: World, txs: seq<Transaction>, b: Batch) {
    && |b.used| == |txs|
    && c.finalise(b.world) == w && u.receipts == Receipts(0, txs, b.used) && u.gasUsed == Counter(0, b.used)
  }

  /** Sealing executes the block again from its parent's state, on one pool, and compares gas,
      receipts and state root. */
  ghost predicate Reexecutes(c: Context, u: Unsealed, w: World, root: World -> nat) {
    var txs := Flatten(TxLists(u.frags));
    var b := Process(c, c.prologue(u.base), c.gasLimit, txs);
    b.ok && Counter(0, b.used) == u.gasUsed && Receipts(0, txs, b.used) == u.receipts && root(c.finalise(b.world)) == root(w)
  }

  /** So a complete block is refused exactly when its receipts overrun the gas limit. */
  lemma SealsWithinLimit(c: Context, settled: World -> bool, u: Unsealed, w: World, root: World -> nat)
    requires Good(c, u, w) && u.frags != [] && Lawful(c) && Settles(c, settled)
    ensures var txs := Flatten(TxLists(u.frags));
            && |u.receipts| == |txs|
            && (Reexecutes(c, u, w, root) <==> WithinLimit(c, c.gasLimit, txs, Drawn(c, txs, GasUsed(u.receipts))))
  {
    OpenBlockReplays(c, settled, u, w);
  }

  // ---- The node ----

  datatype Parent = Parent(number: nat, time: nat, state: Option<World>)

  /** An environment message, with what the engine derives from it. */
  datatype Opening = Opening(
    number: nat, timestamp: nat, e: Env, gasLimit: nat, prologue: World -> World, finalise: World -> World)

  /** A block without frags on top of the parent's state. */
  function Opened(o: Opening, base: World): Unsealed {
    Unsealed(o.number, o.e, o.gasLimit, o.prologue, o.finalise, base, [], None, [], 0, 0)
  }

  class Node {
    const evm: Evm
    ghost var ctx: Context
    var block: Option<Unsealed>
    var state: Option<World>

    /** Whenever a block is open, it is good. */
    ghost predicate Valid()
      reads this
    {
      && (block.Some? <==> state.Some?)
      && (block.Some? ==>
            && block.value.gasLimit <= MAX_U64
            && Follows(ctx, block.value.e, evm) && Good(ctx, block.value, state.value))
    }

    constructor (evm: Evm)
      ensures Valid() && block == None && this.evm == evm
    {
      this.evm := evm;
      block, state := None, None;
    }

    method ResetCurrentUnsealedBlock()
      modifies `block, `state
      ensures Valid() && block == None && state == None
    {
      block, state := None, None;
    }

    method SetCurrentUnsealedBlock(parent: Option<Parent>, o: Opening) returns (ok: bool)
      requires Valid() && o.gasLimit <= MAX_U64
      modifies this
      ensures Valid()
      ensures ok <==> parent.Some? && parent.value.state.Some?
      ensures ok ==> block == Some(Opened(o, parent.value.state.value)) && state == parent.value.state
      ensures !ok ==> block == old(block) && state == old(state)
    {
      if parent.None? || parent.value.state.None? {
        return false;
      }
      var base := parent.value.state.value;
      ctx := BlockContext(o.e, evm, o.gasLimit, o.prologue, o.finalise);
      BlockContextFollows(o.e, evm, o.gasLimit, o.prologue, o.finalise);
      block := Some(Opened(o, base));
      state := Some(base);
      StartsGood(ctx, block.value);
      ok := true;
    }

    /** Opens a block on a known parent, one above it and no older, when none is open; any failure
        leaves no block open, discarding the one that was. */
    method EnvV0(parent: Option<Parent>, o: Opening) returns (ok: bool)
      requires Valid() && o.gasLimit <= MAX_U64
      modifies this
      ensures Valid()
      ensures ok <==> && parent.Some? && old(block).None? && o.number == parent.value.number + 1
                      && o.timestamp >= parent.value.time && parent.value.state.Some?
      ensures ok ==> block == Some(Opened(o, parent.value.state.value)) && state == parent.value.state
      ensures ok ==> block.value.number == parent.value.number + 1 && block.value.frags == [] && block.value.base == parent.value.state.value
      ensures !ok ==> block == None && state == None
    {
      ok := && parent.Some? && block.None? && o.number == parent.value.number + 1 && o.timestamp >= parent.value.time;
      if ok {
        ok := SetCurrentUnsealedBlock(parent, o);
      }
      if !ok {
        ResetCurrentUnsealedBlock();
      }
    }

    /** Executes a frag on the open block. A rejected frag has already moved the gas counter by the
        transactions that went through before the rejection. */
    method InsertNewFrag(f: Frag) returns (ok: bool)
      requires Valid()
      requires block.Some? ==> f.blockNumber == block.value.number && IsNextFrag(block.value, f)
      modifies `block, `state
      ensures old(state).None? ==> !ok && block == old(block) && state == None
      ensures old(block).Some? ==>
                var b := Process(ctx, ctx.prologue(old(state).value), ctx.gasLimit, f.txs);
                && ok == b.ok && block.Some?
                && block.value == (if ok then WithFrag(old(block).value, f, b.used) else
                                   old(block).value.(gasUsed := Counter(old(block).value.gasUsed, b.used)))
                && (ok ==> state == Some(ctx.finalise(b.world)))
      ensures ok ==> Valid()
    {
      if state.None? {
        return false;
      }
      var u := block.value;
      GoodCounter(ctx, u, state.value);
      var world, receipts, used;
      ok, world, receipts, used := ProcessWithCumulativeGas(ctx, u.e, evm, u.gasLimit, u.prologue, u.finalise, state.value, f.txs, u.gasUsed);
      ghost var b := Process(ctx, u.prologue(state.value), u.gasLimit, f.txs);
      u := u.(gasUsed := used);
      if ok {
        var blob := AddBlobGas(u.blobGasUsed, receipts);
        u := u.(frags := u.frags + [f], last := Some(f.seq_), receipts := u.receipts + receipts, blobGasUsed := blob);
        GoodGrows(ctx, block.value, state.value, f, b);
      }
      block, state := Some(u), Some(world);
    }

    /** Builds the block and inserts it without making it the head. `root` is the state root, and
        `headerValid` the verdict of the header and consensus checks. */
    method SealBlock(root: World -> nat, headerValid: bool) returns (ok: bool)
      requires Valid()
      ensures ok <==> block.Some? && headerValid && Reexecutes(ctx, block.value, state.value, root)
    {
      if state.None? {
        return false;
      }
      var u := block.value;
      var txs := Flatten(TxLists(u.frags));
      var world, receipts, used;
      ok, world, receipts, used := ProcessWithCumulativeGas(ctx, u.e, evm, u.gasLimit, u.prologue, u.finalise, u.base, txs, 0);
      ok := headerValid && ok && used == u.gasUsed && receipts == u.receipts && root(world) == root(state.value);
    }

    /** A frag is accepted exactly when it is the open block's next one, it executes, and, if it is
        the last, the block pre-seals; anything else discards the open block. */
    method NewFragV0(f: Frag, root: World -> nat, headerValid: bool) returns (ok: bool)
      requires Valid()
      modifies `block, `state
      ensures Valid()
      ensures ok <==> && old(block).Some? && InTurn(old(block).value, f)
                      && var b := Process(ctx, ctx.prologue(old(state).value), ctx.gasLimit, f.txs);
                        && b.ok
                        && (f.isLast ==> headerValid && Reexecutes(ctx, WithFrag(old(block).value, f, b.used), ctx.finalise(b.world), root))
      ensures ok ==>
                var b := Process(ctx, ctx.prologue(old(state).value), ctx.gasLimit, f.txs);
                block == Some(WithFrag(old(block).value, f, b.used)) && state == Some(ctx.finalise(b.world))
      ensures !ok ==> block == None && state == None
    {
      if block.Some? {
        NextInTurn(block.value, f);
      }
      ok := block.Some? && f.blockNumber == block.value.number && IsNextFrag(block.value, f);
      if ok {
        ok := InsertNewFrag(f);
      }
      if ok && f.isLast {
        ok := SealBlock(root, headerValid);
      }
      if !ok {
        ResetCurrentUnsealedBlock();
      }
    }
  }

  /** So whatever calls led here, the open block is the block its frags stand for, exactly when its
      receipts stay within the gas limit. */
  lemma OpenBlockIsABlock(n: Node, settled: World -> bool)
    requires n.Valid() && n.block.Some? && n.block.value.frags != [] && Settles(n.ctx, settled)
    ensures var u := n.block.value;
            var txs := Flatten(TxLists(u.frags));
            var b := Process(n.ctx, u.prologue(u.base), u.gasLimit, txs);
            && |u.receipts| == |txs|
            && (b.ok <==> WithinLimit(n.ctx, u.gasLimit, txs, Drawn(n.ctx, txs, GasUsed(u.receipts))))
            && (b.ok ==> Batched(n.ctx, u, n.state.value, txs, b))
  {
    var u := n.block.value;
    FollowsLawful(n.ctx, u.e, n.evm);
    OpenBlockReplays(n.ctx, settled, u, n.state.value);
  }

  lemma StartsGood(c: Context, u: Unsealed)
    requires c.gasLimit == u.gasLimit && c.prologue == u.prologue && c.finalise == u.finalise
    requires u.frags == [] && u.last == None && u.receipts == [] && u.gasUsed == 0 && u.blobGasUsed == 0
    ensures Good(c, u, u.base)
  {
    assert BlobGas([]) == [];
  }

  lemma GoodCounter(c: Context, u: Unsealed, w: World)
    requires Good(c, u, w)
    ensures u.gasUsed < U64
  {
  }

  method AddBlobGas(start: nat, receipts: seq<Receipt>) returns (total: nat)
    ensures total == Counter(start, BlobGas(receipts))
  {
    total := start;
    ghost var gas := BlobGas(receipts);
    for i := 0 to |receipts|
      invariant total == Counter(start, gas[..i])
    {
      assert gas[..i + 1][..i] == gas[..i];
      total := (total + receipts[i].blobGas) % U64;
    }
    assert gas[..|receipts|] == gas;
  }
}
