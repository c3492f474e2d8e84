/** Moving the canonical head: the number->hash table, the transaction lookup index and the
    log events, kept in step with a tree of blocks through arbitrary reorganisations. */
module BlockChains {
  import opened Options
  import opened BlockTree
  import opened Sequences

  datatype ReorgError = CurrentHeadMissing | InvalidOldChain | InvalidNewChain | UnknownAncestor

  // Log events are sent once more than this many logs have piled up.
  const LOG_BATCH: nat := 512

  /** The two chains hold the same block at height `m`. */
  ghost predicate Meet(s: Store, a: Block, b: Block, m: nat) {
    && m <= a.number && m <= b.number
    && Ancestor(s, a, a.number - m).Some?
    && Ancestor(s, a, a.number - m) == Ancestor(s, b, b.number - m)
  }

  /** `chain` lists the first |chain| blocks met walking down from `top`. */
  ghost predicate Lists(s: Store, top: Block, chain: seq<Block>) {
    forall i {:trigger chain[i]} | 0 <= i < |chain| :: Ancestor(s, top, i) == Some(chain[i])
  }

  /** `chain` is the stretch from `top` down to, but not including, `bottom`. */
  ghost predicate Stretch(s: Store, top: Block, chain: seq<Block>, bottom: Block) {
    Lists(s, top, chain) && Ancestor(s, top, |chain|) == Some(bottom)
  }

  ghost predicate Connected(s: Store, a: Block, b: Block) {
    exists m: nat :: Meet(s, a, b, m)
  }

  /** The two stretches end at the highest block the chains share. */
  ghost predicate Fork(s: Store, oldHead: Block, oldChain: seq<Block>, newHead: Block, newChain: seq<Block>, common: Block) {
    && Stretch(s, oldHead, oldChain, common) && Stretch(s, newHead, newChain, common)
    && forall m: nat | Meet(s, oldHead, newHead, m) :: m <= common.number
  }

  /** Gathers the blocks of the longer chain above the given height. */
  method Level(s: Store, top: Block, height: nat) returns (at: Option<Block>, chain: seq<Block>)
    requires WellFormed(s) && Stored(s, top) && height <= top.number
    ensures Lists(s, top, chain) && at == Ancestor(s, top, |chain|) && |chain| <= top.number - height
    ensures at.Some? ==> Stored(s, at.value) && at.value.number == height
  {
    at, chain := Some(top), [];
    while at.Some? && at.value.number != height
      invariant Lists(s, top, chain) && at == Ancestor(s, top, |chain|)
      invariant at.Some? ==> Stored(s, at.value)
      invariant |chain| <= top.number - height
      decreases top.number - |chain|
    {
      chain := chain + [at.value];
      at := Parent(s, at.value);
    }
  }

  /** Walks down from both heads to their highest common block. It succeeds exactly when the
      old head is stored and the two chains meet at all. */
  method FindFork(s: Store, oldHash: Hash, oldNumber: nat, newHead: Block)
    returns (err: Option<ReorgError>, oldChain: seq<Block>, newChain: seq<Block>, common: Block)
    requires WellFormed(s) && Stored(s, newHead)
    ensures err == Some(CurrentHeadMissing) <==> Get(s, oldHash, oldNumber).None?
    ensures Get(s, oldHash, oldNumber).Some? ==>
              var oldHead := Get(s, oldHash, oldNumber).value;
              && (err.None? <==> Connected(s, oldHead, newHead))
              && (err.None? ==> Fork(s, oldHead, oldChain, newHead, newChain, common))
    ensures err != Some(UnknownAncestor)
  {
    oldChain, newChain, common := [], [], newHead;
    var o, n := Get(s, oldHash, oldNumber), Some(newHead);
    if o.None? {
      return Some(CurrentHeadMissing), oldChain, newChain, common;
    }
    var oldHead := o.value;
    if oldHead.number > newHead.number {
      o, oldChain := Level(s, oldHead, newHead.number);
    } else {
      n, newChain := Level(s, newHead, oldHead.number);
    }
    if o.None? {
      NoMeeting(s, oldHead, |oldChain|, newHead, 0);
      return Some(InvalidOldChain), oldChain, newChain, common;
    }
    if n.None? {
      NoMeeting(s, oldHead, 0, newHead, |newChain|);
      return Some(InvalidNewChain), oldChain, newChain, common;
    }
    err, oldChain, newChain, common := StepToCommon(s, oldHead, oldChain, o.value, newHead, newChain, n.value);
  }

  /** Steps both chains back, one block each at a time, until they hold the same block. */
  method StepToCommon(s: Store, oldHead: Block, oldTop: seq<Block>, oldFrom: Block,
                      newHead: Block, newTop: seq<Block>, newFrom: Block)
    returns (err: Option<ReorgError>, oldChain: seq<Block>, newChain: seq<Block>, common: Block)
    requires WellFormed(s) && Stored(s, oldFrom) && Stored(s, newFrom) && oldFrom.number == newFrom.number
    requires Stretch(s, oldHead, oldTop, oldFrom) && Stretch(s, newHead, newTop, newFrom)
    requires oldFrom.number == oldHead.number || newFrom.number == newHead.number
    ensures err.None? <==> Connected(s, oldHead, newHead)
    ensures err.None? ==> Fork(s, oldHead, oldChain, newHead, newChain, common)
    ensures err != Some(CurrentHeadMissing) && err != Some(UnknownAncestor)
  {
    oldChain, newChain, common := oldTop, newTop, oldFrom;
    var o, n := oldFrom, newFrom;
    while o.hash != n.hash
      invariant o.number == n.number && Stored(s, o) && Stored(s, n)
      invariant Stretch(s, oldHead, oldChain, o) && Stretch(s, newHead, newChain, n)
      invariant forall m: nat | m > o.number :: !Meet(s, oldHead, newHead, m)
      decreases o.number
    {
      var oldParent, newParent := Parent(s, o), Parent(s, n);
      StepApart(s, oldHead, oldChain, o, newHead, newChain, n);
      oldChain, newChain := oldChain + [o], newChain + [n];
      if oldParent.None? {
        return Some(InvalidOldChain), oldChain, newChain, common;
      }
      if newParent.None? {
        return Some(InvalidNewChain), oldChain, newChain, common;
      }
      o, n := oldParent.value, newParent.value;
    }
    common, err := o, None;
    assert Meet(s, oldHead, newHead, common.number);
  }

  /** Where two chains differ they do not meet; and if either then ends, they meet nowhere. */
  lemma StepApart(s: Store, oldHead: Block, oldChain: seq<Block>, o: Block,
                  newHead: Block, newChain: seq<Block>, n: Block)
    requires o.number == n.number && o != n
    requires Stretch(s, oldHead, oldChain, o) && Stretch(s, newHead, newChain, n)
    requires forall m: nat | m > o.number :: !Meet(s, oldHead, newHead, m)
    ensures !Meet(s, oldHead, newHead, o.number)
    ensures Parent(s, o).Some? ==> Stretch(s, oldHead, oldChain + [o], Parent(s, o).value)
    ensures Parent(s, n).Some? ==> Stretch(s, newHead, newChain + [n], Parent(s, n).value)
    ensures Parent(s, o).None? || Parent(s, n).None? ==> !Connected(s, oldHead, newHead)
  {
    if Parent(s, o).None? || Parent(s, n).None? {
      NoMeeting(s, oldHead, |oldChain| + 1, newHead, |newChain| + 1);
    }
  }

  lemma NoMeeting(s: Store, a: Block, k: nat, b: Block, j: nat)
    requires Ancestor(s, a, k).None? || Ancestor(s, b, j).None?
    ensures forall m: nat | m <= a.number - k && m <= b.number - j :: !Meet(s, a, b, m)
  {
    forall m: nat | m <= a.number - k && m <= b.number - j
      ensures !Meet(s, a, b, m)
    {
      if Ancestor(s, a, k).None? {
        AncestorsEnd(s, a, k, a.number - m);
      } else {
        AncestorsEnd(s, b, j, b.number - m);
      }
    }
  }

  /** A listed block is stored and sits on the top block's path at its own height. */
  lemma ListedOnPath(s: Store, top: Block, chain: seq<Block>, i: nat)
    requires WellFormed(s) && Stored(s, top) && Rooted(s, top) && Lists(s, top, chain) && i < |chain|
    ensures i <= top.number && Stored(s, chain[i])
    ensures chain[i].number == top.number - i && chain[i].hash == Path(s, top)[top.number - i]
  {
    assert Ancestor(s, top, i) == Some(chain[i]);
    AncestorOnPath(s, top, i);
  }

  /** The new head's path agrees with the old one's up to the fork. */
  lemma ForkPaths(s: Store, oldHead: Block, k: nat, newHead: Block, j: nat, common: Block)
    requires WellFormed(s) && Stored(s, oldHead) && Stored(s, newHead) && Rooted(s, oldHead)
    requires Ancestor(s, oldHead, k) == Some(common) == Ancestor(s, newHead, j)
    ensures Rooted(s, common) && Stored(s, common) && Rooted(s, newHead)
    ensures Path(s, common) == Path(s, newHead)[..common.number + 1] == Path(s, oldHead)[..common.number + 1]
  {
    AncestorOnPath(s, oldHead, k);
    RootedBelow(s, newHead, j);
  }

  // ---- Logs ----

  /** Every log of `b` and its ancestors, oldest block first. */
  ghost function LogsTo(s: Store, b: Block): seq<nat>
    requires Rooted(s, b)
    decreases b.number
  {
    if b.number == 0 then b.logs else LogsTo(s, Parent(s, b).value) + b.logs
  }

  /** The logs of a stretch listed top first, oldest block first. */
  ghost function LogsUp(chain: seq<Block>): seq<nat> {
    if chain == [] then [] else LogsUp(chain[1..]) + chain[0].logs
  }

  lemma {:induction false} LogsUpSnoc(chain: seq<Block>, b: Block)
    ensures LogsUp(chain + [b]) == b.logs + LogsUp(chain)
  {
    if chain == [] {
      assert [b][1..] == [];
    } else {
      var both := chain + [b];
      assert both[1..] == chain[1..] + [b];
      LogsUpSnoc(chain[1..], b);
      assert LogsUp(both) == LogsUp(both[1..]) + both[0].logs;
    }
  }

  /** A chain's logs are those below a point followed by those of the stretch above it. */
  lemma {:induction false} LogsSplit(s: Store, top: Block, chain: seq<Block>, bottom: Block)
    requires Rooted(s, top) && Stretch(s, top, chain, bottom)
    ensures Rooted(s, bottom) && LogsTo(s, top) == LogsTo(s, bottom) + LogsUp(chain)
  {
    if chain != [] {
      var k := |chain| - 1;
      LogsSplit(s, top, chain[..k], chain[k]);
      LogsUpSnoc(chain[..k], chain[k]);
      assert chain == chain[..k] + [chain[k]];
    }
  }

  /** A batch was within the limit before the last block that joined it. */
  ghost predicate Tight(chain: seq<Block>, batch: seq<nat>) {
    exists k | 0 <= k < |chain| :: |batch| <= 512 + |chain[k].logs|
  }

  /** The logs of `chain[i..]` are in full batches, except for those pending. */
  ghost predicate Batched(chain: seq<Block>, i: nat, batches: seq<seq<nat>>, pending: seq<nat>)
    requires i <= |chain|
  {
    && Flatten(batches) + pending == LogsUp(chain[i..])
    && forall j | 0 <= j < |batches| :: |batches[j]| > LOG_BATCH && Tight(chain, batches[j])
  }

  /** The next block's logs join what is pending. */
  lemma BatchNext(chain: seq<Block>, i: nat, batches: seq<seq<nat>>, pending: seq<nat>)
    requires i < |chain| && Batched(chain, i + 1, batches, pending)
    ensures Batched(chain, i, batches, pending + chain[i].logs)
  {
    assert chain[i..][1..] == chain[i + 1..];
    assert Flatten(batches) + (pending + chain[i].logs) == Flatten(batches) + pending + chain[i].logs;
  }

  /** Closing a batch moves what is pending into it. */
  lemma BatchClose(chain: seq<Block>, i: nat, batches: seq<seq<nat>>, pending: seq<nat>)
    requires i <= |chain| && Batched(chain, i, batches, pending) && |pending| > LOG_BATCH && Tight(chain, pending)
    ensures Batched(chain, i, batches + [pending], [])
  {
    FlattenSnoc(batches, pending);
    assert Flatten(batches + [pending]) + [] == Flatten(batches + [pending]);
  }

  lemma BatchEnd(chain: seq<Block>, i: nat, batches: seq<seq<nat>>, pending: seq<nat>)
    requires i <= |chain| && Batched(chain, i, batches, pending)
    ensures Flatten(if pending == [] then batches else batches + [pending]) == LogsUp(chain[i..])
  {
    FlattenSnoc(batches, pending);
    assert Flatten(batches) + [] == Flatten(batches);
  }

  /** Sends the logs of `chain[lo..]`, lowest block first, in batches that close once they
      exceed the limit. Nothing is lost, repeated or reordered. */
  method EmitLogs(chain: seq<Block>, lo: nat) returns (batches: seq<seq<nat>>)
    requires lo <= |chain|
    ensures Flatten(batches) == LogsUp(chain[lo..])
    ensures forall i | 0 <= i < |batches| :: batches[i] != [] && (i < |batches| - 1 ==> |batches[i]| > 512) && Tight(chain, batches[i])
  {
    var pending: seq<nat> := [];
    batches := [];
    var i := |chain|;
    while i > lo
      invariant lo <= i <= |chain|
      invariant Batched(chain, i, batches, pending) && |pending| <= LOG_BATCH && (pending != [] ==> i < |chain|)
    {
      i := i - 1;
      BatchNext(chain, i, batches, pending);
      pending := pending + chain[i].logs;
      assert Tight(chain, pending);
      if |pending| > LOG_BATCH {
        BatchClose(chain, i, batches, pending);
        batches := batches + [pending];
        pending := [];
      }
    }
    BatchEnd(chain, i, batches, pending);
    if |pending| > 0 {
      assert |pending| <= 512 + |chain[i].logs|;
      batches := batches + [pending];
    }
  }

  // ---- Transaction lookup ----

  ghost predicate TxAt(s: Store, b: Block, n: nat, t: Hash)
    requires Rooted(s, b)
  {
    n <= b.number && Path(s, b)[n] in s && t in s[Path(s, b)[n]].txs
  }

  /** No transaction occurs in two blocks of the chain. */
  ghost predicate UniqueTxs(s: Store, b: Block)
    requires Rooted(s, b)
  {
    forall t, n: nat, m: nat | TxAt(s, b, n, t) && TxAt(s, b, m, t) :: n == m
  }

  /** The index names a height for a transaction exactly when that block of the chain holds it. */
  ghost predicate Indexes(s: Store, b: Block, index: map<Hash, nat>)
    requires Rooted(s, b)
  {
    (forall t | t in index :: TxAt(s, b, index[t], t)) && Covers(s, b, index)
  }

  /** Every transaction of the chain is found at its height; entries of other blocks may linger. */
  ghost predicate Covers(s: Store, b: Block, index: map<Hash, nat>)
    requires Rooted(s, b)
  {
    forall t, n: nat | TxAt(s, b, n, t) :: t in index && index[t] == n
  }

  function WithTxs(index: map<Hash, nat>, b: Block): map<Hash, nat> {
    index + map t | t in b.txs :: b.number
  }

  /** The index after the listed blocks have been written to it, lowest first. */
  ghost function WithChain(index: map<Hash, nat>, chain: seq<Block>): map<Hash, nat> {
    if chain == [] then index else WithTxs(WithChain(index, chain[1..]), chain[0])
  }

  function TxsOf(chain: seq<Block>): set<Hash> {
    set i, t | 0 <= i < |chain| && t in chain[i].txs :: t
  }

  lemma {:induction false} WithChainAt(index: map<Hash, nat>, chain: seq<Block>, t: Hash)
    ensures t in WithChain(index, chain) <==> t in index || t in TxsOf(chain)
    ensures t !in TxsOf(chain) && t in index ==> WithChain(index, chain)[t] == index[t]
    ensures t in TxsOf(chain) ==> exists i :: 0 <= i < |chain| && t in chain[i].txs && WithChain(index, chain)[t] == chain[i].number
  {
    if chain != [] {
      WithChainAt(index, chain[1..], t);
      assert t in TxsOf(chain) <==> t in chain[0].txs || t in TxsOf(chain[1..]);
      if t !in chain[0].txs && t in TxsOf(chain[1..]) {
        var i :| 0 <= i < |chain[1..]| && t in chain[1..][i].txs && WithChain(index, chain[1..])[t] == chain[1..][i].number;
        assert chain[1..][i] == chain[i + 1];
      }
    }
  }

  function Tail(chain: seq<Block>): seq<Block> {
    if chain == [] then [] else chain[1..]
  }

  /** The index a reorganisation leaves behind: the new stretch written except its head, the
      transactions that only the old stretch held dropped, then the new head written. */
  ghost function Moved(index: map<Hash, nat>, oldChain: seq<Block>, newHead: Block, newChain: seq<Block>): map<Hash, nat> {
    WithTxs(WithChain(index, Tail(newChain)) - (TxsOf(oldChain) - TxsOf(Tail(newChain))), newHead)
  }

  /** Where an entry of the moved index comes from. */
  lemma MovedFrom(index: map<Hash, nat>, oldChain: seq<Block>, newHead: Block, newChain: seq<Block>, t: Hash)
    requires t in Moved(index, oldChain, newHead, newChain)
    ensures var n := Moved(index, oldChain, newHead, newChain)[t];
            || (t in newHead.txs && n == newHead.number)
            || (exists i :: 0 <= i < |newChain| && t in newChain[i].txs && n == newChain[i].number)
            || (t in index && t !in TxsOf(oldChain) && t !in newHead.txs && t !in TxsOf(Tail(newChain)) && n == index[t])
  {
    var tail := Tail(newChain);
    WithChainAt(index, tail, t);
    if t !in newHead.txs && t in TxsOf(tail) {
      var i :| 0 <= i < |tail| && t in tail[i].txs && WithChain(index, tail)[t] == tail[i].number;
      assert tail[i] == newChain[i + 1];
    }
  }

  /** The transactions of a listed block are those the chain holds at its height. */
  lemma ListedTx(s: Store, top: Block, chain: seq<Block>, i: nat, t: Hash)
    requires WellFormed(s) && Stored(s, top) && Rooted(s, top) && Lists(s, top, chain) && i < |chain|
    ensures i <= top.number && (t in chain[i].txs <==> TxAt(s, top, top.number - i, t))
  {
    ListedOnPath(s, top, chain, i);
  }

  /** A transaction the chain holds above the fork is one of the stretch's, and conversely. */
  lemma AboveFork(s: Store, top: Block, chain: seq<Block>, bottom: Block, t: Hash)
    requires WellFormed(s) && Stored(s, top) && Rooted(s, top) && Stretch(s, top, chain, bottom)
    ensures t in TxsOf(chain) <==> exists n: nat :: n > bottom.number && TxAt(s, top, n, t)
  {
    if t in TxsOf(chain) {
      var i :| 0 <= i < |chain| && t in chain[i].txs;
      ListedTx(s, top, chain, i, t);
      assert TxAt(s, top, top.number - i, t);
    }
    if n: nat :| n > bottom.number && TxAt(s, top, n, t) {
      ListedTx(s, top, chain, top.number - n, t);
    }
  }

  /** Up to the fork both chains hold the same transactions. */
  lemma BelowFork(s: Store, a: Block, k: nat, b: Block, j: nat, common: Block, n: nat, t: Hash)
    requires WellFormed(s) && Stored(s, a) && Stored(s, b) && Rooted(s, a) && Rooted(s, b) && n <= common.number
    requires Ancestor(s, a, k) == Some(common) == Ancestor(s, b, j)
    ensures TxAt(s, a, n, t) <==> TxAt(s, b, n, t)
  {
    ForkPaths(s, a, k, b, j, common);
    assert Path(s, a)[n] == Path(s, a)[..common.number + 1][n] == Path(s, b)[..common.number + 1][n] == Path(s, b)[n];
  }

  /** If the index matched the old chain, it matches the new one after the move, provided no
      transaction repeats on the new chain. */
  lemma IndexMoves(s: Store, oldHead: Block, oldChain: seq<Block>, newHead: Block, newChain: seq<Block>, common: Block,
                   index: map<Hash, nat>)
    requires WellFormed(s) && Stored(s, oldHead) && Stored(s, newHead) && Rooted(s, oldHead) && Rooted(s, newHead)
    requires Stretch(s, oldHead, oldChain, common) && Stretch(s, newHead, newChain, common)
    requires Indexes(s, oldHead, index) && UniqueTxs(s, newHead)
    ensures Indexes(s, newHead, Moved(index, oldChain, newHead, newChain))
  {
    var moved := Moved(index, oldChain, newHead, newChain);
    forall t | t in moved
      ensures TxAt(s, newHead, moved[t], t)
    {
      EntryIsRight(s, oldHead, oldChain, newHead, newChain, common, index, t);
    }
    CoverMoves(s, oldHead, oldChain, newHead, newChain, common, index);
  }

  /** The same for an index with lingering entries, as a rewind leaves it. */
  lemma CoverMoves(s: Store, oldHead: Block, oldChain: seq<Block>, newHead: Block, newChain: seq<Block>, common: Block,
                   index: map<Hash, nat>)
    requires WellFormed(s) && Stored(s, oldHead) && Stored(s, newHead) && Rooted(s, oldHead) && Rooted(s, newHead)
    requires Stretch(s, oldHead, oldChain, common) && Stretch(s, newHead, newChain, common)
    requires Covers(s, oldHead, index) && UniqueTxs(s, newHead)
    ensures Covers(s, newHead, Moved(index, oldChain, newHead, newChain))
  {
    var moved := Moved(index, oldChain, newHead, newChain);
    forall t, n: nat | TxAt(s, newHead, n, t)
      ensures t in moved && moved[t] == n
    {
      EntryIsThere(s, oldHead, oldChain, newHead, newChain, common, index, n, t);
      EntryIsPlaced(s, oldHead, oldChain, newHead, newChain, common, index, n, t);
    }
  }

  /** So a whole index stays whole, and one with lingering entries stays complete, exactly when no
      transaction repeats on the new chain. */
  lemma IndexOutcome(s: Store, oldHead: Block, oldChain: seq<Block>, newHead: Block, newChain: seq<Block>, common: Block,
                     index: map<Hash, nat>)
    requires WellFormed(s) && Stored(s, oldHead) && Stored(s, newHead) && Rooted(s, oldHead) && Rooted(s, newHead)
    requires Stretch(s, oldHead, oldChain, common) && Stretch(s, newHead, newChain, common)
    ensures var moved := Moved(index, oldChain, newHead, newChain);
            && (Indexes(s, oldHead, index) ==> (Indexes(s, newHead, moved) <==> UniqueTxs(s, newHead)))
            && (Covers(s, oldHead, index) ==> (Covers(s, newHead, moved) <==> UniqueTxs(s, newHead)))
  {
    if UniqueTxs(s, newHead) {
      if Indexes(s, oldHead, index) {
        IndexMoves(s, oldHead, oldChain, newHead, newChain, common, index);
      }
      if Covers(s, oldHead, index) {
        CoverMoves(s, oldHead, oldChain, newHead, newChain, common, index);
      }
    }
  }

  lemma EntryIsRight(s: Store, oldHead: Block, oldChain: seq<Block>, newHead: Block, newChain: seq<Block>, common: Block,
                     index: map<Hash, nat>, t: Hash)
    requires WellFormed(s) && Stored(s, oldHead) && Stored(s, newHead) && Rooted(s, oldHead) && Rooted(s, newHead)
    requires Stretch(s, oldHead, oldChain, common) && Stretch(s, newHead, newChain, common)
    requires Indexes(s, oldHead, index) && t in Moved(index, oldChain, newHead, newChain)
    ensures TxAt(s, newHead, Moved(index, oldChain, newHead, newChain)[t], t)
  {
    var n := Moved(index, oldChain, newHead, newChain)[t];
    MovedFrom(index, oldChain, newHead, newChain, t);
    if t in newHead.txs && n == newHead.number {
      assert TxAt(s, newHead, n, t);
    } else if t in index && t !in TxsOf(oldChain) && n == index[t] {
      KeptEntry(s, oldHead, oldChain, newHead, newChain, common, index, t);
    } else {
      var i :| 0 <= i < |newChain| && t in newChain[i].txs && n == newChain[i].number;
      ListedEntry(s, newHead, newChain, i, t);
    }
  }

  lemma ListedEntry(s: Store, top: Block, chain: seq<Block>, i: nat, t: Hash)
    requires WellFormed(s) && Stored(s, top) && Rooted(s, top) && Lists(s, top, chain) && i < |chain| && t in chain[i].txs
    ensures TxAt(s, top, chain[i].number, t)
  {
    ListedOnPath(s, top, chain, i);
  }

  /** An entry that no dropped block holds names a block below the fork. */
  lemma KeptEntry(s: Store, oldHead: Block, oldChain: seq<Block>, newHead: Block, newChain: seq<Block>, common: Block,
                  index: map<Hash, nat>, t: Hash)
    requires WellFormed(s) && Stored(s, oldHead) && Stored(s, newHead) && Rooted(s, oldHead) && Rooted(s, newHead)
    requires Stretch(s, oldHead, oldChain, common) && Stretch(s, newHead, newChain, common)
    requires Indexes(s, oldHead, index) && t in index && t !in TxsOf(oldChain)
    ensures TxAt(s, newHead, index[t], t)
  {
    var n := index[t];
    assert TxAt(s, oldHead, n, t);
    AboveFork(s, oldHead, oldChain, common, t);
    BelowFork(s, oldHead, |oldChain|, newHead, |newChain|, common, n, t);
  }

  lemma EntryIsThere(s: Store, oldHead: Block, oldChain: seq<Block>, newHead: Block, newChain: seq<Block>, common: Block,
                     index: map<Hash, nat>, n: nat, t: Hash)
    requires WellFormed(s) && Stored(s, oldHead) && Stored(s, newHead) && Rooted(s, oldHead) && Rooted(s, newHead)
    requires Stretch(s, oldHead, oldChain, common) && Stretch(s, newHead, newChain, common)
    requires Covers(s, oldHead, index) && TxAt(s, newHead, n, t)
    ensures t in Moved(index, oldChain, newHead, newChain)
  {
    var tail := Tail(newChain);
    WithChainAt(index, tail, t);
    if n > common.number {
      var i := newHead.number - n;
      ListedTx(s, newHead, newChain, i, t);
      if i > 0 {
        assert tail[i - 1] == newChain[i];
      }
    } else {
      BelowFork(s, oldHead, |oldChain|, newHead, |newChain|, common, n, t);
      AboveFork(s, oldHead, oldChain, common, t);
    }
  }

  /** The entry of a transaction of the new chain names its height there. */
  lemma EntryIsPlaced(s: Store, oldHead: Block, oldChain: seq<Block>, newHead: Block, newChain: seq<Block>, common: Block,
                      index: map<Hash, nat>, n: nat, t: Hash)
    requires WellFormed(s) && Stored(s, oldHead) && Stored(s, newHead) && Rooted(s, oldHead) && Rooted(s, newHead)
    requires Stretch(s, oldHead, oldChain, common) && Stretch(s, newHead, newChain, common)
    requires Covers(s, oldHead, index) && UniqueTxs(s, newHead) && TxAt(s, newHead, n, t)
    requires t in Moved(index, oldChain, newHead, newChain)
    ensures Moved(index, oldChain, newHead, newChain)[t] == n
  {
    var m := Moved(index, oldChain, newHead, newChain)[t];
    MovedFrom(index, oldChain, newHead, newChain, t);
    if t in newHead.txs && m == newHead.number {
      assert TxAt(s, newHead, m, t);
    } else if i :| 0 <= i < |newChain| && t in newChain[i].txs && m == newChain[i].number {
      ListedEntry(s, newHead, newChain, i, t);
    } else if n <= common.number {
      BelowFork(s, oldHead, |oldChain|, newHead, |newChain|, common, n, t);
    } else {
      NotListed(s, newHead, newChain, common, n, t);
    }
  }

  /** A transaction above the fork is in the head or in the rest of the new stretch. */
  lemma NotListed(s: Store, newHead: Block, newChain: seq<Block>, common: Block, n: nat, t: Hash)
    requires WellFormed(s) && Stored(s, newHead) && Rooted(s, newHead) && Stretch(s, newHead, newChain, common)
    requires TxAt(s, newHead, n, t) && n > common.number
    ensures t in newHead.txs || t in TxsOf(Tail(newChain))
  {
    var i := newHead.number - n;
    ListedTx(s, newHead, newChain, i, t);
    if i > 0 {
      assert Tail(newChain)[i - 1] == newChain[i];
    } else {
      StretchStartsAtTop(s, newHead, newChain);
    }
  }

  /** Taking `removed` out of a stream of logs and then adding `added` yields the other stream. */
  ghost predicate Replays(before: seq<nat>, removed: seq<nat>, added: seq<nat>, after: seq<nat>) {
    && multiset(removed) <= multiset(before)
    && multiset(before) - multiset(removed) + multiset(added) == multiset(after)
  }

  /** Events taken at a fork replay the log stream exactly when the head's own logs, sent once
      more on a move to an ancestor, are not already part of the chain. */
  lemma EventsReplay(shared: seq<nat>, before: seq<nat>, removed: seq<nat>, added: seq<nat>, after: seq<nat>, repeated: seq<nat>)
    requires before == shared + removed
    requires after + repeated == shared + added
    ensures Replays(before, removed, added, after) <==> repeated == []
  {
    assert multiset(before) - multiset(removed) + multiset(added) == multiset(after + repeated);
    assert multiset(after + repeated) == multiset(after) + multiset(repeated);
    assert |multiset(repeated)| == |repeated|;
  }

  /** The batches a feed gained carry exactly the given logs, in order. */
  ghost predicate Sent(before: seq<seq<nat>>, after: seq<seq<nat>>, logs: seq<nat>) {
    |before| <= |after| && after[..|before|] == before && Flatten(after[|before|..]) == logs
  }

  /** The height up to which a reorganisation keeps canonical slots. */
  function KeptHeight(newChain: seq<Block>, common: Block): nat {
    if |newChain| > 1 then newChain[1].number else common.number
  }

  lemma OnPathMeets(s: Store, top: Block, b: Block)
    requires WellFormed(s) && Stored(s, top) && Rooted(s, top) && Stored(s, b)
    requires b.number <= top.number && Path(s, top)[b.number] == b.hash
    ensures Meet(s, top, b, b.number)
  {
    AncestorOnPath(s, top, top.number - b.number);
    assert Ancestor(s, b, 0) == Some(b);
  }

  /** The new stretch is empty exactly when the new head was on the old chain. */
  lemma ForkAtHead(s: Store, oldHead: Block, oldChain: seq<Block>, b: Block, newChain: seq<Block>, common: Block)
    requires WellFormed(s) && Stored(s, oldHead) && Rooted(s, oldHead) && Stored(s, b)
    requires Fork(s, oldHead, oldChain, b, newChain, common)
    ensures newChain == [] <==> b.number <= oldHead.number && Path(s, oldHead)[b.number] == b.hash
  {
    if newChain == [] {
      AncestorOnPath(s, oldHead, |oldChain|);
    }
    if b.number <= oldHead.number && Path(s, oldHead)[b.number] == b.hash {
      OnPathMeets(s, oldHead, b);
    }
  }

  /** What is announced on top of the shared logs: the new chain's, with the head's own once more
      when the head was already canonical. */
  lemma Announced(s: Store, b: Block, newChain: seq<Block>, common: Block)
    requires Rooted(s, b) && Stretch(s, b, newChain, common)
    ensures Rooted(s, common)
    ensures LogsTo(s, b) + (if newChain == [] then b.logs else []) == LogsTo(s, common) + (LogsUp(Tail(newChain)) + b.logs)
  {
    LogsSplit(s, b, newChain, common);
    StretchStartsAtTop(s, b, newChain);
    var below, tail := LogsTo(s, common), LogsUp(Tail(newChain));
    if newChain == [] {
      assert below + [] == below && [] + b.logs == b.logs;
    } else {
      assert LogsTo(s, b) + [] == LogsTo(s, b);
    }
  }

  /** The events of a head move replay the old chain's logs into the new one's exactly when
      the new head was not on the old chain or has no logs to repeat. */
  lemma HeadLogsReplay(s: Store, oldHead: Block, oldChain: seq<Block>, b: Block, newChain: seq<Block>, common: Block)
    requires WellFormed(s) && Stored(s, oldHead) && Rooted(s, oldHead) && Stored(s, b) && Rooted(s, b)
    requires Fork(s, oldHead, oldChain, b, newChain, common)
    ensures Replays(LogsTo(s, oldHead), LogsUp(oldChain), LogsUp(Tail(newChain)) + b.logs, LogsTo(s, b))
            <==> !(b.number <= oldHead.number && Path(s, oldHead)[b.number] == b.hash) || b.logs == []
  {
    LogsSplit(s, oldHead, oldChain, common);
    Announced(s, b, newChain, common);
    ForkAtHead(s, oldHead, oldChain, b, newChain, common);
    EventsReplay(LogsTo(s, common), LogsTo(s, oldHead), LogsUp(oldChain), LogsUp(Tail(newChain)) + b.logs,
                 LogsTo(s, b), if newChain == [] then b.logs else []);
  }

  /** What making `b` the head does to the table and to the transaction index. The table becomes
      exactly the block's path, unless the block extends the head under a longer table. */
  ghost predicate Installed(s: Store, was: Block, b: Block, canonical: map<nat, Hash>, canonical': map<nat, Hash>,
                            index: map<Hash, nat>, index': map<Hash, nat>)
    requires Rooted(s, was) && Rooted(s, b)
  {
    && (canonical' == Index(Path(s, b)) <==> was.hash != b.parent || |canonical| <= b.number + 1)
    && (was.hash == b.parent ==> canonical' == canonical[b.number := b.hash])
    && (Indexes(s, was, index) ==> (Indexes(s, b, index') <==> UniqueTxs(s, b)))
    && (Covers(s, was, index) ==> (Covers(s, b, index') <==> UniqueTxs(s, b)))
  }

  /** The events sent replay the log stream of the old chain into the new one exactly when the
      new head was not canonical already or carries no logs. */
  ghost predicate Announces(s: Store, was: Block, b: Block, canonical: map<nat, Hash>,
                            removed: seq<seq<nat>>, removed': seq<seq<nat>>, logs: seq<seq<nat>>, logs': seq<seq<nat>>)
    requires Rooted(s, was) && Rooted(s, b)
  {
    && |removed| <= |removed'| && |logs| <= |logs'|
    && (Replays(LogsTo(s, was), Flatten(removed'[|removed|..]), Flatten(logs'[|logs|..]), LogsTo(s, b))
        <==> !(b.number <= was.number && Slot(canonical, b.number) == b.hash) || b.logs == [])
  }

  lemma FeedsReplay(s: Store, oldHead: Block, oldChain: seq<Block>, b: Block, newChain: seq<Block>, common: Block,
                    canonical: map<nat, Hash>, removed: seq<seq<nat>>, removed': seq<seq<nat>>,
                    logs: seq<seq<nat>>, logs': seq<seq<nat>>)
    requires Sound(s, canonical, oldHead) && Stored(s, b) && Rooted(s, b)
    requires Fork(s, oldHead, oldChain, b, newChain, common)
    requires Sent(removed, removed', LogsUp(oldChain)) && Sent(logs, logs', LogsUp(Tail(newChain)) + b.logs)
    ensures Announces(s, oldHead, b, canonical, removed, removed', logs, logs')
  {
    HeadLogsReplay(s, oldHead, oldChain, b, newChain, common);
  }

  lemma StretchStartsAtTop(s: Store, top: Block, chain: seq<Block>)
    requires Lists(s, top, chain)
    ensures chain != [] ==> chain[0] == top && LogsUp(chain) == LogsUp(Tail(chain)) + top.logs
  {
    assert Ancestor(s, top, 0) == Some(top);
  }

  /** The slots above `common` up to `top` hold the new head's path, the others are as before. */
  ghost predicate Rewritten(s: Store, was: map<nat, Hash>, m: map<nat, Hash>, newHead: Block, common: Block, top: int)
    requires Rooted(s, newHead) && top <= newHead.number
  {
    && ZERO_HASH !in m.Values
    && forall n: nat :: Slot(m, n) == if common.number < n <= top then Path(s, newHead)[n] else Slot(was, n)
  }

  /** The next block finds its ancestors in place and leads the table to itself. */
  lemma RewriteNext(s: Store, was: map<nat, Hash>, m: map<nat, Hash>, newHead: Block, common: Block, b: Block)
    requires WellFormed(s) && Stored(s, newHead) && Rooted(s, newHead) && Stored(s, b)
    requires b.number <= newHead.number && Path(s, newHead)[b.number] == b.hash && common.number < b.number
    requires forall n: nat | n <= common.number :: Slot(was, n) == Path(s, newHead)[n]
    requires Rewritten(s, was, m, newHead, common, b.number - 1)
    ensures Rewritten(s, was, m[b.number := b.hash], newHead, common, b.number)
    ensures LeadsTo(s, m[b.number := b.hash], b)
  {
    var full := m[b.number := b.hash];
    AncestorsInPlace(s, newHead, b);
    assert forall n: nat :: Slot(full, n) == if n == b.number then b.hash else Slot(m, n);
    assert forall h | h in full.Values :: h == b.hash || h in m.Values;
  }

  /** The tables of `trail` lead, one by one, to the blocks of the chain from its low end. */
  ghost predicate Leading(s: Store, chain: seq<Block>, trail: seq<map<nat, Hash>>) {
    |trail| <= |chain| && forall k: nat | k < |trail| :: LeadsTo(s, trail[k], chain[|chain| - 1 - k])
  }

  lemma LeadsOn(s: Store, chain: seq<Block>, trail: seq<map<nat, Hash>>, m: map<nat, Hash>)
    requires Leading(s, chain, trail) && |trail| < |chain| && LeadsTo(s, m, chain[|chain| - 1 - |trail|])
    ensures Leading(s, chain, trail + [m])
  {
  }

  /** Writing one slot for a child of the head keeps the table sound, and makes it the child's path
      exactly when it did not reach above the child. */
  lemma ChildSlot(s: Store, m: map<nat, Hash>, head: Block, b: Block)
    requires Sound(s, m, head) && Stored(s, b) && Parent(s, b) == Some(head)
    ensures Sound(s, m[b.number := b.hash], b)
    ensures m[b.number := b.hash] == Index(Path(s, b)) <==> |m| <= b.number + 1
  {
    var full := m[b.number := b.hash];
    SoundIsExact(s, m, head);
    assert Path(s, b) == Path(s, head) + [b.hash];
    assert SlotFilled(m, b.number);
    forall n: nat
      ensures Slot(full, n) == if n == b.number then b.hash else Slot(m, n)
      ensures SlotFilled(full, n)
    {
      assert SlotFilled(m, n);
    }
    SoundIsExact(s, full, b);
  }

  class BlockChain {
    var blocks: Store
    var canonical: map<nat, Hash>
    var txIndex: map<Hash, nat>
    var head: Block
    var headHeader: Block
    var headSnap: Block
    // Events sent so far, in order.
    var removedFeed: seq<seq<nat>>
    var logFeed: seq<seq<nat>>

    ghost predicate Valid()
      reads this
    {
      Sound(blocks, canonical, head)
    }

    /** Writes one block as the head. If the slots below it already hold its ancestors, then
        the slots up to it are its path. */
    method WriteHeadBlock(b: Block)
      modifies this`canonical, this`txIndex, this`head, this`headHeader, this`headSnap
      ensures canonical == old(canonical)[b.number := b.hash]
      ensures txIndex == WithTxs(old(txIndex), b)
      ensures head == headHeader == headSnap == b
      ensures Rooted(blocks, b) && (forall n: nat | n < b.number :: Slot(old(canonical), n) == Path(blocks, b)[n])
              ==> LeadsTo(blocks, canonical, b)
    {
      canonical := canonical[b.number := b.hash];
      txIndex := WithTxs(txIndex, b);
      headHeader, headSnap, head := b, b, b;
    }

    /** Writes the new stretch, lowest block first, leaving its head to the caller. `trail` lists the
        tables after each write: each leads to the block just written. */
    method WriteStretch(newHead: Block, newChain: seq<Block>, common: Block) returns (ghost trail: seq<map<nat, Hash>>)
      requires WellFormed(blocks) && Stored(blocks, newHead) && Rooted(blocks, newHead) && ZERO_HASH !in canonical.Values
      requires Stretch(blocks, newHead, newChain, common)
      requires forall n: nat | n <= common.number :: Slot(canonical, n) == Path(blocks, newHead)[n]
      modifies this`canonical, this`txIndex, this`head, this`headHeader, this`headSnap
      ensures Rewritten(blocks, old(canonical), canonical, newHead, common, newHead.number - 1)
      ensures txIndex == WithChain(old(txIndex), Tail(newChain)) && |trail| == |Tail(newChain)|
      ensures Leading(blocks, newChain, trail)
    {
      var i := |newChain|;
      trail := [];
      while i > 1
        invariant newChain != [] ==> 1 <= i <= |newChain|
        invariant newChain == [] ==> i == 0
        invariant |trail| == |newChain| - i && Leading(blocks, newChain, trail)
        invariant txIndex == WithChain(old(txIndex), newChain[i..])
        invariant Rewritten(blocks, old(canonical), canonical, newHead, common, newHead.number - i)
      {
        i := i - 1;
        ListedOnPath(blocks, newHead, newChain, i);
        assert newChain[i..][1..] == newChain[i + 1..];
        RewriteNext(blocks, old(canonical), canonical, newHead, common, newChain[i]);
        WriteHeadBlock(newChain[i]);
        LeadsOn(blocks, newChain, trail, canonical);
        trail := trail + [canonical];
      }
    }

    /** Deletes, in one batch, the lookup entries that only the old stretch needed and every
        canonical slot above the rewritten part. */
    method DropStale(oldChain: seq<Block>, newChain: seq<Block>, common: Block, ghost end: nat)
      requires ZERO_HASH !in canonical.Values
      requires forall n: nat | n > KeptHeight(newChain, common) :: Slot(canonical, n) != ZERO_HASH <==> n < end
      modifies this`canonical, this`txIndex
      ensures ZERO_HASH !in canonical.Values
      ensures forall n: nat :: Slot(canonical, n) == if n <= KeptHeight(newChain, common) then Slot(old(canonical), n) else ZERO_HASH
      ensures txIndex == old(txIndex) - (TxsOf(oldChain) - TxsOf(Tail(newChain)))
    {
      txIndex := txIndex - (TxsOf(oldChain) - TxsOf(Tail(newChain)));
      var batch := DeleteRun(canonical, KeptHeight(newChain, common), end);
      canonical := batch;
    }

    /** Turns the indexes of the old chain into those of the new one, its head excepted. */
    method RewriteIndexes(newHead: Block, oldChain: seq<Block>, newChain: seq<Block>, common: Block)
      requires Valid() && Stored(blocks, newHead)
      requires Fork(blocks, head, oldChain, newHead, newChain, common)
      modifies this`canonical, this`txIndex, this`head, this`headHeader, this`headSnap
      ensures Rooted(blocks, newHead)
      ensures WithTxs(txIndex, newHead) == Moved(old(txIndex), oldChain, newHead, newChain)
      ensures canonical[newHead.number := newHead.hash] == Index(Path(blocks, newHead))
    {
      ghost var end := |canonical|;
      ForkPaths(blocks, head, |oldChain|, newHead, |newChain|, common);
      SharedSlots(newHead, common);
      SlotsFilled(canonical);
      ghost var _ := WriteStretch(newHead, newChain, common);
      assert KeptHeight(newChain, common) == newHead.number - if newChain == [] then 0 else 1;
      DropStale(oldChain, newChain, common, if end > newHead.number then end else newHead.number);
      TableWithHead(canonical, newHead, KeptHeight(newChain, common));
    }

    /** Switches the indexes from the current head's chain to the new head's, except for the
        new head itself, which the caller writes. */
    method Reorg(newHead: Block) returns (err: Option<ReorgError>, oldChain: seq<Block>, newChain: seq<Block>, common: Block)
      requires Valid() && Stored(blocks, newHead)
      modifies this
      ensures blocks == old(blocks)
      ensures err.None? <==> Connected(blocks, old(head), newHead)
      ensures err != Some(UnknownAncestor)
      ensures err.Some? ==> unchanged(this)
      ensures err.None? ==>
                && Fork(blocks, old(head), oldChain, newHead, newChain, common)
                && Rooted(blocks, newHead)
                && WithTxs(txIndex, newHead) == Moved(old(txIndex), oldChain, newHead, newChain)
                && canonical[newHead.number := newHead.hash] == Index(Path(blocks, newHead))
                && Sent(old(removedFeed), removedFeed, LogsUp(oldChain))
                && Sent(old(logFeed), logFeed, LogsUp(Tail(newChain)))
    {
      ghost var oldHead := head;
      assert Get(blocks, head.hash, head.number) == Some(oldHead);
      err, oldChain, newChain, common := FindFork(blocks, head.hash, head.number, newHead);
      if err.Some? {
        return;
      }
      RewriteIndexes(newHead, oldChain, newChain, common);
      SendReorgLogs(oldChain, newChain);
    }

    /** Sends the logs of the dropped stretch, then those of the new one, its head excepted. */
    method SendReorgLogs(oldChain: seq<Block>, newChain: seq<Block>)
      modifies this`removedFeed, this`logFeed
      ensures Sent(old(removedFeed), removedFeed, LogsUp(oldChain))
      ensures Sent(old(logFeed), logFeed, LogsUp(Tail(newChain)))
    {
      var removed := EmitLogs(oldChain, 0);
      var reborn := EmitLogs(newChain, if newChain == [] then 0 else 1);
      assert oldChain[0..] == oldChain;
      removedFeed, logFeed := removedFeed + removed, logFeed + reborn;
    }

    /** A table that holds the new head's ancestors and nothing else lacks only its own slot. */
    lemma TableWithHead(m: map<nat, Hash>, newHead: Block, kept: nat)
      requires WellFormed(blocks) && Stored(blocks, newHead) && Rooted(blocks, newHead) && ZERO_HASH !in m.Values
      requires newHead.number - 1 <= kept <= newHead.number
      requires forall n: nat :: Slot(m, n) == if n <= kept then Path(blocks, newHead)[n] else ZERO_HASH
      ensures m[newHead.number := newHead.hash] == Index(Path(blocks, newHead))
    {
      var p, full := Path(blocks, newHead), m[newHead.number := newHead.hash];
      PathNonZero(blocks, newHead);
      assert newHead.hash == p[newHead.number];
      assert forall n: nat :: Slot(full, n) == if n == newHead.number then newHead.hash else Slot(m, n);
      SlotsDetermine(full, p);
    }

    lemma SharedSlots(newHead: Block, common: Block)
      requires Valid() && Rooted(blocks, newHead) && common.number <= head.number && common.number <= newHead.number
      requires Path(blocks, newHead)[..common.number + 1] == Path(blocks, head)[..common.number + 1]
      ensures forall n: nat | n <= common.number :: Slot(canonical, n) == Path(blocks, newHead)[n]
    {
      forall n: nat | n <= common.number
        ensures Slot(canonical, n) == Path(blocks, newHead)[n]
      {
        assert Path(blocks, newHead)[n] == Path(blocks, head)[..common.number + 1][n] == Path(blocks, head)[n];
      }
    }

    /** Makes a stored block the head, reorganising first unless it extends the current head.
        It fails exactly when the two chains never meet, and then nothing changes. The table becomes
        exactly the block's path, unless the block extends the head under a table that reaches
        above it: without a reorganisation the slots above stay. */
    method WriteKnownBlock(b: Block)
      returns (err: Option<ReorgError>, ghost oldChain: seq<Block>, ghost newChain: seq<Block>, ghost common: Block)
      requires Valid() && Stored(blocks, b)
      modifies this
      ensures Valid() && blocks == old(blocks)
      ensures err.None? <==> Connected(blocks, old(head), b)
      ensures err != Some(UnknownAncestor)
      ensures err.Some? ==> unchanged(this)
      ensures err.None? ==>
                && head == headHeader == headSnap == b
                && Installed(blocks, old(head), b, old(canonical), canonical, old(txIndex), txIndex)
                && Fork(blocks, old(head), oldChain, b, newChain, common)
                && Sent(old(removedFeed), removedFeed, LogsUp(oldChain))
                && Sent(old(logFeed), logFeed, LogsUp(Tail(newChain)))
    {
      ghost var oldHead, oldIndex := head, txIndex;
      if b.parent != head.hash {
        err, oldChain, newChain, common := Reorg(b);
        if err.Some? {
          return;
        }
      } else {
        err, oldChain, newChain, common := None, [], [b], head;
        ChildOfHead(b);
      }
      WriteHeadBlock(b);
      if b.parent != oldHead.hash {
        ExactIsSound(blocks, canonical, b, b);
      }
      IndexOutcome(blocks, oldHead, oldChain, b, newChain, common, oldIndex);
    }

    lemma ChildOfHead(b: Block)
      requires Valid() && Stored(blocks, b) && b.parent == head.hash
      ensures Fork(blocks, head, [], b, [b], head) && Connected(blocks, head, b)
      ensures Sound(blocks, canonical[b.number := b.hash], b)
      ensures canonical[b.number := b.hash] == Index(Path(blocks, b)) <==> |canonical| <= b.number + 1
      ensures WithTxs(txIndex, b) == Moved(txIndex, [], b, [b])
    {
      assert Linked(blocks, blocks[b.hash]);
      assert Ancestor(blocks, b, 0) == Some(b);
      assert Ancestor(blocks, b, 1) == Some(head);
      assert Meet(blocks, head, b, head.number);
      ChildSlot(blocks, canonical, head, b);
      assert Tail([b]) == [];
      assert WithChain(txIndex, []) - (TxsOf([]) - TxsOf([])) == txIndex;
    }

    /** Makes a stored block canonical and announces it. The events replay the log stream of
        the old chain into the new one exactly when the head was not canonical already or
        carries no logs. */
    method SetCanonical(b: Block) returns (err: Option<ReorgError>)
      requires Valid() && Stored(blocks, b)
      modifies this
      ensures Valid() && blocks == old(blocks)
      ensures err.None? <==> Connected(blocks, old(head), b)
      ensures err != Some(UnknownAncestor)
      ensures err.Some? ==> unchanged(this)
      ensures err.None? ==>
                && head == headHeader == headSnap == b
                && Installed(blocks, old(head), b, old(canonical), canonical, old(txIndex), txIndex)
                && Announces(blocks, old(head), b, old(canonical), old(removedFeed), removedFeed, old(logFeed), logFeed)
    {
      ghost var oldHead := head;
      ghost var oldChain, newChain, common;
      err, oldChain, newChain, common := WriteKnownBlock(b);
      if err.Some? {
        return;
      }
      AnnounceLogs(b.logs, old(logFeed), LogsUp(Tail(newChain)));
      FeedsReplay(blocks, oldHead, oldChain, b, newChain, common, old(canonical), old(removedFeed), removedFeed, old(logFeed), logFeed);
    }

    /** Sends a block's logs unless it has none. */
    method AnnounceLogs(logs: seq<nat>, ghost was: seq<seq<nat>>, ghost sent: seq<nat>)
      requires Sent(was, logFeed, sent)
      modifies this`logFeed
      ensures logFeed == if |logs| > 0 then old(logFeed) + [logs] else old(logFeed)
      ensures Sent(was, logFeed, sent + logs)
    {
      if |logs| > 0 {
        assert (logFeed + [logs])[|was|..] == logFeed[|was|..] + [logs];
        FlattenSnoc(logFeed[|was|..], logs);
        logFeed := logFeed + [logs];
      }
    }

    /** Stores a block on top of a known parent and makes it the head. */
    method WriteBlockAndSetHead(b: Block) returns (err: Option<ReorgError>)
      requires Valid() && WellFormed(blocks[b.hash := b])
      requires b.hash in blocks ==> blocks[b.hash] == b
      modifies this
      ensures Valid()
      ensures err == Some(UnknownAncestor) <==> Parent(old(blocks), b).None?
      ensures err == Some(UnknownAncestor) ==> unchanged(this)
      ensures err != Some(UnknownAncestor) ==> blocks == old(blocks)[b.hash := b]
      ensures err.None? ==> head == headHeader == headSnap == b
      ensures err.None? <==> Parent(old(blocks), b).Some? && Connected(old(blocks)[b.hash := b], old(head), b)
      ensures Rooted(blocks, old(head))
      ensures err.None? ==>
                && Installed(blocks, old(head), b, old(canonical), canonical, old(txIndex), txIndex)
                && Announces(blocks, old(head), b, old(canonical), old(removedFeed), removedFeed, old(logFeed), logFeed)
    {
      if Parent(blocks, b).None? {
        return Some(UnknownAncestor);
      }
      PathGrows(blocks, blocks[b.hash := b], head);
      blocks := blocks[b.hash := b];
      err := SetCanonical(b);
    }
  }

  const SECOND := Block(2, 1, 1, 11, 1, [], [7])
  const THIRD := Block(3, 2, 2, 12, 2, [], [])

  lemma ThreeInARow(s: Store)
    requires s == map[1 := GENESIS, 2 := SECOND, 3 := THIRD]
    ensures WellFormed(s) && Rooted(s, THIRD) && Rooted(s, SECOND) && Rooted(s, GENESIS)
    ensures Path(s, GENESIS) == [1] && Path(s, SECOND) == [1, 2] && Path(s, THIRD) == [1, 2, 3]
    ensures Index([1, 2, 3]) == map[0 := 1, 1 := 2, 2 := 3] && Index([1, 2]) == map[0 := 1, 1 := 2]
  {
    assert Parent(s, THIRD) == Some(SECOND) && Parent(s, SECOND) == Some(GENESIS);
    assert forall h | h in s :: Linked(s, s[h]);
  }

  /** A block that extends the full head under a longer table: the slot above it survives. */
  method StaleSlotSurvives(c: BlockChain)
    requires c.blocks == map[1 := GENESIS, 2 := SECOND, 3 := THIRD] && c.canonical == map[0 := 1, 1 := 2, 2 := 3]
    requires c.head == GENESIS && c.headHeader == THIRD
    modifies c
    ensures old(c.Valid()) && c.head == SECOND && Rooted(c.blocks, SECOND)
    ensures c.canonical != Index(Path(c.blocks, SECOND)) && Slot(c.canonical, 2) == THIRD.hash
  {
    ThreeInARow(c.blocks);
    ExactIsSound(c.blocks, c.canonical, THIRD, GENESIS);
    c.ChildOfHead(SECOND);
    ghost var oldChain, newChain, common;
    var err;
    err, oldChain, newChain, common := c.WriteKnownBlock(SECOND);
  }

  /** Making the head canonical once more announces its log a second time. */
  method LogsRepeated(c: BlockChain) returns (err: Option<ReorgError>)
    requires c.blocks == map[1 := GENESIS, 2 := SECOND, 3 := THIRD] && c.canonical == map[0 := 1, 1 := 2]
    requires c.head == SECOND
    modifies c
    ensures old(c.Valid()) && err.None? && Rooted(c.blocks, SECOND)
    ensures |old(c.removedFeed)| <= |c.removedFeed| && |old(c.logFeed)| <= |c.logFeed|
    ensures !Replays(LogsTo(c.blocks, SECOND), Flatten(c.removedFeed[|old(c.removedFeed)|..]),
                     Flatten(c.logFeed[|old(c.logFeed)|..]), LogsTo(c.blocks, SECOND))
  {
    ThreeInARow(c.blocks);
    ExactIsSound(c.blocks, c.canonical, SECOND, SECOND);
    assert Meet(c.blocks, SECOND, SECOND, 1) by {
      OnPathMeets(c.blocks, SECOND, SECOND);
    }
    err := c.SetCanonical(SECOND);
  }
}
