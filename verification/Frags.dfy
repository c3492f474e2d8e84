/** Processing a block's transactions, whole or in fragments: the unsealed block grows frag by
    frag, each processed with a gas pool of its own. */
module Frags {
  import opened Sequences
  import opened Options
  import opened Accounts
  import opened IntrinsicGases
  import opened StateTransitions

  type ApplyFn = (World, nat, Transaction) -> Outcome

  /** How transactions are applied, what each asks of the pool, the gas limit, and what runs
      before the first and after the last transaction of a processing call. */
  datatype Context = Context(apply: ApplyFn, need: Transaction -> nat, gasLimit: nat, prologue: World -> World, finalise: World -> World)

  /** What a transaction that reports `used` draws from the pool: as much, unless it asks for nothing, as
      a system deposit does whatever it reports. */
  function Draw(c: Context, tx: Transaction, used: nat): nat {
    if c.need(tx) == 0 then 0 else used
  }

  /** Applied with one pool, a transaction does the same with any other that covers its need. */
  ghost predicate SameOnPool(c: Context, w: World, p: nat, q: nat, tx: Transaction) {
    var r := c.apply(w, p, tx);
    r.Applied? ==>
      && c.need(tx) <= p && p - c.need(tx) <= r.pool <= p && r.pool + Draw(c, tx, r.used) == p
      && c.apply(w, q, tx) == if q >= c.need(tx) then r.(pool := q - (p - r.pool)) else Rejected(GasLimitReached)
  }

  /** The pool decides only whether a transaction fits, never what it does. */
  ghost predicate Lawful(c: Context) {
    forall w: World, p: nat, q: nat, tx: Transaction :: SameOnPool(c, w, p, q, tx)
  }

  /** Transactions applied in order until one is rejected: the state and pool then, and the gas
      each applied one used. */
  datatype Batch = Batch(world: World, pool: nat, used: seq<nat>, ok: bool)

  function Process(c: Context, w: World, pool: nat, txs: seq<Transaction>): (b: Batch)
    ensures |b.used| <= |txs| && (b.ok ==> |b.used| == |txs|)
    decreases |txs|
  {
    if txs == [] then Batch(w, pool, [], true) else
    var r := c.apply(w, pool, txs[0]);
    if r.Rejected? then Batch(w, pool, [], false) else
    var rest := Process(c, r.world, r.pool, txs[1..]);
    rest.(used := [r.used] + rest.used)
  }

  lemma {:induction false} ProcessConcat(c: Context, w: World, pool: nat, a: seq<Transaction>, b: seq<Transaction>)
    ensures var x := Process(c, w, pool, a);
            Process(c, w, pool, a + b) ==
            if x.ok then var y := Process(c, x.world, x.pool, b); y.(used := x.used + y.used) else x
    decreases |a|
  {
    if a == [] {
      assert a + b == b;
      var y := Process(c, w, pool, b);
      assert [] + y.used == y.used;
    } else {
      assert (a + b)[0] == a[0] && (a + b)[1..] == a[1..] + b;
      var r := c.apply(w, pool, a[0]);
      if r.Applied? {
        ProcessConcat(c, r.world, r.pool, a[1..], b);
        var x := Process(c, r.world, r.pool, a[1..]);
        if x.ok {
          var y := Process(c, x.world, x.pool, b);
          assert [r.used] + (x.used + y.used) == [r.used] + x.used + y.used;
        }
      }
    }
  }

  /** At no point of a successful run is less left than the next transaction asks for, when the
      run starts with `q` instead of `p`. */
  ghost predicate NeverShort(c: Context, w: World, p: nat, q: int, txs: seq<Transaction>)
    decreases |txs|
  {
    txs == [] ||
    (c.need(txs[0]) <= q &&
     var r := c.apply(w, p, txs[0]);
     r.Applied? ==> NeverShort(c, r.world, r.pool, q - (p - r.pool), txs[1..]))
  }

  /** A run that succeeds with one pool succeeds with another, and does the same, exactly when
      the other never runs short. */
  lemma {:induction false} PoolChange(c: Context, w: World, p: nat, q: nat, txs: seq<Transaction>)
    requires Lawful(c) && Process(c, w, p, txs).ok
    ensures var x, y := Process(c, w, p, txs), Process(c, w, q, txs);
            && x.pool <= p
            && (y.ok <==> NeverShort(c, w, p, q, txs))
            && (y.ok ==> y.world == x.world && y.used == x.used && q - y.pool == p - x.pool)
    decreases |txs|
  {
    if txs != [] {
      assert SameOnPool(c, w, p, q, txs[0]);
      var r := c.apply(w, p, txs[0]);
      var t := c.apply(w, q, txs[0]);
      if q >= c.need(txs[0]) {
        PoolChange(c, r.world, r.pool, t.pool, txs[1..]);
      } else {
        PoolChange(c, r.world, r.pool, r.pool, txs[1..]);
      }
    }
  }

  /** More gas than a successful run started with is never short. */
  lemma {:induction false} MoreIsEnough(c: Context, w: World, p: nat, q: nat, txs: seq<Transaction>)
    requires Lawful(c) && Process(c, w, p, txs).ok && p <= q
    ensures NeverShort(c, w, p, q, txs)
    decreases |txs|
  {
    if txs != [] {
      var r := c.apply(w, p, txs[0]);
      assert SameOnPool(c, w, p, q, txs[0]);
      MoreIsEnough(c, r.world, r.pool, q - (p - r.pool), txs[1..]);
    }
  }

  function SumOf(xs: seq<nat>): nat {
    if xs == [] then 0 else xs[0] + SumOf(xs[1..])
  }

  lemma {:induction false} SumConcat(xs: seq<nat>, ys: seq<nat>)
    ensures SumOf(xs + ys) == SumOf(xs) + SumOf(ys)
  {
    if xs == [] {
      assert xs + ys == ys;
    } else {
      assert (xs + ys)[1..] == xs[1..] + ys;
      SumConcat(xs[1..], ys);
    }
  }

  /** What each of the applied transactions drew from the pool. */
  function Drawn(c: Context, txs: seq<Transaction>, used: seq<nat>): (drawn: seq<nat>)
    requires |used| <= |txs|
    ensures |drawn| == |used|
  {
    seq(|used|, i requires 0 <= i < |used| => Draw(c, txs[i], used[i]))
  }

  /** One processing call draws exactly the gas missing from its pool, so at most the limit. */
  lemma {:induction false} GasOfBatch(c: Context, w: World, p: nat, txs: seq<Transaction>)
    requires Lawful(c)
    ensures var b := Process(c, w, p, txs); SumOf(Drawn(c, txs, b.used)) + b.pool == p
    decreases |txs|
  {
    if txs != [] {
      var r := c.apply(w, p, txs[0]);
      assert SameOnPool(c, w, p, p, txs[0]);
      if r.Applied? {
        GasOfBatch(c, r.world, r.pool, txs[1..]);
        var rest := Process(c, r.world, r.pool, txs[1..]);
        DrawnCons(c, txs, [r.used] + rest.used);
      }
    }
  }

  lemma DrawnCons(c: Context, txs: seq<Transaction>, used: seq<nat>)
    requires 0 < |used| <= |txs|
    ensures Drawn(c, txs, used)[0] == Draw(c, txs[0], used[0]) && Drawn(c, txs, used)[1..] == Drawn(c, txs[1..], used[1..])
  {
  }

  // ---- Frags against one block ----

  datatype Grown = Grown(world: World, used: seq<nat>, ok: bool)

  /** Each frag is a processing call of its own, on the state the previous one left. */
  function ProcessFrags(c: Context, w: World, frags: seq<seq<Transaction>>): (g: Grown)
    ensures |g.used| <= |Flatten(frags)| && (g.ok ==> |g.used| == |Flatten(frags)|)
    decreases |frags|
  {
    if frags == [] then Grown(w, [], true) else
    var b := Process(c, c.prologue(w), c.gasLimit, frags[0]);
    if !b.ok then Grown(b.world, b.used, false) else
    var rest := ProcessFrags(c, c.finalise(b.world), frags[1..]);
    rest.(used := b.used + rest.used)
  }

  /** Growing by one frag at the end. */
  lemma {:induction false} FragsSnoc(c: Context, w: World, frags: seq<seq<Transaction>>, txs: seq<Transaction>)
    requires ProcessFrags(c, w, frags).ok
    ensures var g := ProcessFrags(c, w, frags);
            var b := Process(c, c.prologue(g.world), c.gasLimit, txs);
            b.ok ==> ProcessFrags(c, w, frags + [txs]) == Grown(c.finalise(b.world), g.used + b.used, true)
    decreases |frags|
  {
    if frags == [] {
      assert [txs][1..] == [] && frags + [txs] == [txs];
      var b := Process(c, c.prologue(w), c.gasLimit, txs);
      assert b.used + [] == b.used && [] + b.used == b.used;
    } else {
      assert (frags + [txs])[0] == frags[0] && (frags + [txs])[1..] == frags[1..] + [txs];
      var b := Process(c, c.prologue(w), c.gasLimit, frags[0]);
      FragsSnoc(c, c.finalise(b.world), frags[1..], txs);
      var g := ProcessFrags(c, c.finalise(b.world), frags[1..]);
      var x := Process(c, c.prologue(g.world), c.gasLimit, txs);
      assert b.used + (g.used + x.used) == b.used + g.used + x.used;
    }
  }

  /** Once the prologue has run it has no further effect, and neither has finalisation; applying
      transactions does not undo that. */
  ghost predicate Settles(c: Context, settled: World -> bool) {
    && (forall w: World :: settled(c.prologue(w)))
    && (forall w: World | settled(w) :: c.prologue(w) == w && c.finalise(w) == w)
    && (forall w: World, p: nat, tx: Transaction | settled(w) && c.apply(w, p, tx).Applied? :: settled(c.apply(w, p, tx).world))
  }

  lemma {:induction false} StaysSettled(c: Context, settled: World -> bool, w: World, p: nat, txs: seq<Transaction>)
    requires Settles(c, settled) && settled(w)
    ensures settled(Process(c, w, p, txs).world)
    decreases |txs|
  {
    if txs != [] && c.apply(w, p, txs[0]).Applied? {
      StaysSettled(c, settled, c.apply(w, p, txs[0]).world, c.apply(w, p, txs[0]).pool, txs[1..]);
    }
  }

  /** If the concatenation succeeds on what is left of one gas limit, so does every frag. */
  lemma {:induction false} SplitFrom(c: Context, settled: World -> bool, w: World, q: nat, frags: seq<seq<Transaction>>)
    requires Lawful(c) && Settles(c, settled) && settled(w) && q <= c.gasLimit
    requires Process(c, w, q, Flatten(frags)).ok
    ensures var b, g := Process(c, w, q, Flatten(frags)), ProcessFrags(c, w, frags);
            g.ok && g.world == b.world && g.used == b.used
    decreases |frags|
  {
    if frags != [] {
      ProcessConcat(c, w, q, frags[0], Flatten(frags[1..]));
      var x := Process(c, w, q, frags[0]);
      OnLarger(c, w, q, c.gasLimit, frags[0]);
      PoolChange(c, w, q, q, frags[0]);
      StaysSettled(c, settled, w, q, frags[0]);
      SplitFrom(c, settled, x.world, x.pool, frags[1..]);
    }
  }

  /** What a batch does within the gas limit it does on any larger pool. */
  lemma OnLarger(c: Context, w: World, p: nat, q: nat, txs: seq<Transaction>)
    requires Lawful(c) && Process(c, w, p, txs).ok && p <= q
    ensures var x, y := Process(c, w, p, txs), Process(c, w, q, txs);
            y.ok && y.world == x.world && y.used == x.used && y.pool >= q - p
  {
    MoreIsEnough(c, w, p, q, txs);
    PoolChange(c, w, p, q, txs);
  }

  /** The gas of `n` pools together. */
  function Pools(limit: nat, n: nat): nat {
    if n == 0 then 0 else limit + Pools(limit, n - 1)
  }

  /** Accepted frags always concatenate on a large enough pool. */
  lemma {:induction false} JoinOnWidePool(c: Context, settled: World -> bool, w: World, q: nat, frags: seq<seq<Transaction>>)
    requires Lawful(c) && Settles(c, settled) && settled(w) && q >= Pools(c.gasLimit, |frags|)
    requires ProcessFrags(c, w, frags).ok
    ensures var b, g := Process(c, w, q, Flatten(frags)), ProcessFrags(c, w, frags);
            b.ok && g.world == b.world && g.used == b.used
    decreases |frags|
  {
    if frags != [] {
      var x, y := Process(c, w, c.gasLimit, frags[0]), Process(c, w, q, frags[0]);
      OnLarger(c, w, c.gasLimit, q, frags[0]);
      StaysSettled(c, settled, w, c.gasLimit, frags[0]);
      JoinOnWidePool(c, settled, x.world, y.pool, frags[1..]);
      ProcessConcat(c, w, q, frags[0], Flatten(frags[1..]));
    }
  }

  lemma PrologueOnce(c: Context, settled: World -> bool, w: World, frags: seq<seq<Transaction>>)
    requires Settles(c, settled) && frags != []
    ensures ProcessFrags(c, w, frags) == ProcessFrags(c, c.prologue(w), frags)
  {
    assert settled(c.prologue(w));
    assert c.prologue(c.prologue(w)) == c.prologue(w);
  }

  /** A block that is accepted whole is accepted in any split, with the same final state and the
      same gas for every transaction. */
  lemma FragsRefineBlock(c: Context, settled: World -> bool, w: World, frags: seq<seq<Transaction>>)
    requires Lawful(c) && Settles(c, settled) && frags != []
    requires Process(c, c.prologue(w), c.gasLimit, Flatten(frags)).ok
    ensures var b, g := Process(c, c.prologue(w), c.gasLimit, Flatten(frags)), ProcessFrags(c, w, frags);
            g.ok && g.world == c.finalise(b.world) && g.used == b.used
  {
    PrologueOnce(c, settled, w, frags);
    SplitFrom(c, settled, c.prologue(w), c.gasLimit, frags);
    StaysSettled(c, settled, c.prologue(w), c.gasLimit, Flatten(frags));
  }

  /** Accepted frags make an acceptable block exactly when one gas limit never runs short for
      their concatenation. */
  lemma BlockOnOnePool(c: Context, settled: World -> bool, w: World, frags: seq<seq<Transaction>>, wide: nat)
    requires Lawful(c) && Settles(c, settled) && frags != [] && ProcessFrags(c, w, frags).ok
    requires wide >= Pools(c.gasLimit, |frags|)
    ensures Process(c, c.prologue(w), c.gasLimit, Flatten(frags)).ok <==>
            NeverShort(c, c.prologue(w), wide, c.gasLimit, Flatten(frags))
    ensures Process(c, c.prologue(w), wide, Flatten(frags)).ok
    ensures Process(c, c.prologue(w), wide, Flatten(frags)).used == ProcessFrags(c, w, frags).used
  {
    PrologueOnce(c, settled, w, frags);
    var v, all := c.prologue(w), Flatten(frags);
    JoinOnWidePool(c, settled, v, wide, frags);
    PoolChange(c, v, wide, c.gasLimit, all);
  }

  /** Before each transaction the limit still covers what it asks for, given the gas drawn so far. */
  ghost predicate WithinLimit(c: Context, limit: int, txs: seq<Transaction>, used: seq<nat>)
    requires |used| == |txs|
  {
    forall i: nat | i < |txs| :: SumOf(used[..i]) + c.need(txs[i]) <= limit
  }

  lemma WithinLimitCons(c: Context, limit: int, txs: seq<Transaction>, used: seq<nat>)
    requires |used| == |txs| > 0
    ensures WithinLimit(c, limit, txs, used) <==>
            c.need(txs[0]) <= limit && WithinLimit(c, limit - used[0], txs[1..], used[1..])
  {
    assert used[..0] == [];
    forall i: nat | i < |txs| - 1
      ensures SumOf(used[..i + 1]) == used[0] + SumOf(used[1..][..i])
    {
      assert used[..i + 1][1..] == used[1..][..i];
    }
    if c.need(txs[0]) <= limit && WithinLimit(c, limit - used[0], txs[1..], used[1..]) {
      forall i: nat | i < |txs|
        ensures SumOf(used[..i]) + c.need(txs[i]) <= limit
      {
        if i > 0 {
          assert SumOf(used[1..][..i - 1]) + c.need(txs[1..][i - 1]) <= limit - used[0];
        }
      }
    }
    if WithinLimit(c, limit, txs, used) {
      assert SumOf(used[..0]) + c.need(txs[0]) <= limit;
      forall i: nat | i < |txs[1..]|
        ensures SumOf(used[1..][..i]) + c.need(txs[1..][i]) <= limit - used[0]
      {
        assert SumOf(used[..i + 1]) + c.need(txs[i + 1]) <= limit;
      }
    }
  }

  /** Running short is a matter of the gas reported. */
  lemma {:induction false} ShortByGas(c: Context, w: World, p: nat, q: int, txs: seq<Transaction>)
    requires Process(c, w, p, txs).ok && Lawful(c)
    ensures NeverShort(c, w, p, q, txs) <==> WithinLimit(c, q, txs, Drawn(c, txs, Process(c, w, p, txs).used))
    decreases |txs|
  {
    if txs != [] {
      var r := c.apply(w, p, txs[0]);
      assert SameOnPool(c, w, p, p, txs[0]);
      ShortByGas(c, r.world, r.pool, q - Draw(c, txs[0], r.used), txs[1..]);
      var used := Process(c, w, p, txs).used;
      assert used[0] == r.used && used[1..] == Process(c, r.world, r.pool, txs[1..]).used;
      DrawnCons(c, txs, used);
      WithinLimitCons(c, q, txs, Drawn(c, txs, used));
    }
  }

  /** Accepted frags make an acceptable block exactly when, going by the gas the frags reported, the
      gas limit covers every transaction's own limit on top of what was drawn before it. */
  lemma BlockFromFrags(c: Context, settled: World -> bool, w: World, frags: seq<seq<Transaction>>)
    requires Lawful(c) && Settles(c, settled) && frags != [] && ProcessFrags(c, w, frags).ok
    ensures Process(c, c.prologue(w), c.gasLimit, Flatten(frags)).ok <==>
            WithinLimit(c, c.gasLimit, Flatten(frags), Drawn(c, Flatten(frags), ProcessFrags(c, w, frags).used))
  {
    var wide := Pools(c.gasLimit, |frags|);
    BlockOnOnePool(c, settled, w, frags, wide);
    ShortOfLimit(c, c.prologue(w), wide, Flatten(frags), ProcessFrags(c, w, frags).used);
  }

  lemma ShortOfLimit(c: Context, w: World, wide: nat, txs: seq<Transaction>, used: seq<nat>)
    requires Lawful(c) && Process(c, w, wide, txs).ok && Process(c, w, wide, txs).used == used
    ensures NeverShort(c, w, wide, c.gasLimit, txs) <==> WithinLimit(c, c.gasLimit, txs, Drawn(c, txs, used))
  {
    ShortByGas(c, w, wide, c.gasLimit, txs);
  }

  // ---- Transactions as messages apply them ----

  /** A transaction whose sender cannot be recovered is rejected like any invalid one. */
  ghost function ApplyTx(e: Env, evm: Evm, w: World, pool: nat, tx: Transaction): Outcome {
    var m := BlockMessage(e, tx);
    if m.None? then Rejected(SenderNoEOA) else Apply(e, evm, w, pool, m.value)
  }

  function NeedOf(e: Env, tx: Transaction): nat {
    var m := BlockMessage(e, tx);
    if m.None? then 0 else PoolNeed(m.value)
  }

  ghost function BlockContext(e: Env, evm: Evm, gasLimit: nat, prologue: World -> World, finalise: World -> World): Context {
    Context((w: World, p: nat, tx: Transaction) => ApplyTx(e, evm, w, p, tx), tx => NeedOf(e, tx), gasLimit, prologue, finalise)
  }

  /** `c` applies transactions as messages of this environment. */
  ghost predicate Follows(c: Context, e: Env, evm: Evm) {
    && (forall w, p, tx {:trigger ApplyTx(e, evm, w, p, tx)} :: c.apply(w, p, tx) == ApplyTx(e, evm, w, p, tx))
    && (forall tx {:trigger NeedOf(e, tx)} :: c.need(tx) == NeedOf(e, tx))
  }

  lemma BlockContextFollows(e: Env, evm: Evm, gasLimit: nat, prologue: World -> World, finalise: World -> World)
    ensures Follows(BlockContext(e, evm, gasLimit, prologue, finalise), e, evm)
  {
  }

  /** Messages obey the law the refinement rests on, system deposits included: these draw nothing. */
  lemma FollowsLawful(c: Context, e: Env, evm: Evm)
    requires Follows(c, e, evm)
    ensures Lawful(c)
  {
    forall w: World, p: nat, q: nat, tx: Transaction
      ensures SameOnPool(c, w, p, q, tx)
    {
      assert c.apply(w, p, tx) == ApplyTx(e, evm, w, p, tx) && c.apply(w, q, tx) == ApplyTx(e, evm, w, q, tx);
      assert c.need(tx) == NeedOf(e, tx);
      if BlockMessage(e, tx).Some? {
        PoolShift(e, evm, w, p, q, BlockMessage(e, tx).value);
        PoolPays(e, evm, w, p, BlockMessage(e, tx).value);
      }
    }
  }

  /** An execution that spends all its gas and fails. */
  function Exhaust(w: World, m: Message, g: nat): Run {
    Run(Touched(w, m), 0, 0, true)
  }

  const LARGE_DEPOSIT := Transaction(Some(1), Some(2), 0, 0, 30000, [], [], Deposit(None, false), None)

  ghost function SmallBlock(e: Env): Context {
    BlockContext(e, Exhaust, 50000, (w: World) => w, (w: World) => w)
  }

  lemma LargeDeposit(e: Env, w: World)
    ensures var r := SmallBlock(e).apply(w, 50000, LARGE_DEPOSIT); r.Applied? && r.pool == 20000
    ensures SmallBlock(e).apply(w, 20000, LARGE_DEPOSIT).Rejected?
  {
    assert IntrinsicCost([], [], false, e.homestead, e.istanbul, e.shanghai) == Gas(21000);
  }

  lemma OneDeposit(e: Env, w: World)
    ensures var c, txs := SmallBlock(e), [LARGE_DEPOSIT];
            && Process(c, w, 50000, txs).ok && !Process(c, w, 20000, txs).ok && ProcessFrags(c, w, [txs]).ok
  {
    var c, tx := SmallBlock(e), LARGE_DEPOSIT;
    LargeDeposit(e, w);
    assert [tx][1..] == [] && [[tx]][1..] == [];
    assert Process(c, c.prologue(w), 50000, [tx]).ok;
  }

  /** Two deposits, each within the gas limit but not both: accepted as two frags, rejected as
      one block. */
  lemma FragsCanOverrun(e: Env, w: World)
    ensures ProcessFrags(SmallBlock(e), w, [[LARGE_DEPOSIT], [LARGE_DEPOSIT]]).ok
    ensures !Process(SmallBlock(e), w, 50000, Flatten([[LARGE_DEPOSIT], [LARGE_DEPOSIT]])).ok
  {
    var tx, c := LARGE_DEPOSIT, SmallBlock(e);
    assert [[tx], [tx]][1..] == [[tx]] && [[tx]][1..] == [];
    assert Flatten([[tx]]) == [tx];
    assert Flatten([[tx], [tx]]) == [tx, tx] && [tx, tx][1..] == [tx];
    LargeDeposit(e, w);
    OneDeposit(e, c.apply(w, 50000, tx).world);
    OneDeposit(e, w);
    OneDeposit(e, c.finalise(Process(c, c.prologue(w), 50000, [tx]).world));
  }
}
