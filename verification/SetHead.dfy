/** Setting the head back: markers move down first, one header at a time, and everything
    above the new head is deleted from the database. */
module SetHeads {
  import opened Options
  import opened BlockTree
  import opened Rewinding
  import BlockChains

  /** Every stored block's ancestors are stored too. */
  ghost predicate Closed(s: Store) {
    forall h {:trigger Parent(s, s[h])} | h in s :: s[h].number == 0 || Parent(s, s[h]).Some?
  }

  lemma {:induction false} ClosedRooted(s: Store, b: Block)
    requires Closed(s) && Stored(s, b) && WellFormed(s)
    ensures Rooted(s, b)
    decreases b.number
  {
    if b.number > 0 {
      ClosedRooted(s, Parent(s, b).value);
    }
  }

  function HashesAt(s: Store, n: nat): set<Hash> {
    set h | h in s && s[h].number == n
  }

  function From(s: Store, n: nat): set<Hash> {
    set h | h in s && s[h].number >= n
  }

  /** In a closed store a height without blocks has none above it either. */
  lemma {:induction false} NothingAbove(s: Store, n: nat, b: Block)
    requires WellFormed(s) && Closed(s) && Stored(s, b) && b.number >= n
    ensures HashesAt(s, n) != {}
    decreases b.number
  {
    if b.number == n {
      assert b.hash in HashesAt(s, n);
    } else {
      NothingAbove(s, n, Parent(s, b).value);
    }
  }

  lemma {:induction false} PathBelow(s: Store, t: Store, b: Block)
    requires WellFormed(s) && Rooted(s, b)
    requires forall h | h in s && s[h].number < b.number :: h in t && t[h] == s[h]
    ensures Rooted(t, b) && Path(t, b) == Path(s, b)
    decreases b.number
  {
    if b.number > 0 {
      PathBelow(s, t, Parent(s, b).value);
    }
  }

  /** `b` is the stored block at its height on the chain ending in `top`. */
  ghost predicate OnPath(s: Store, top: Block, b: Block) {
    Rooted(s, top) && Stored(s, b) && b.number <= top.number && Path(s, top)[b.number] == b.hash
  }

  /** Blocks of a chain at or below one of its members are on that member's own path. */
  lemma OnPathBelow(s: Store, top: Block, mid: Block, b: Block)
    requires WellFormed(s) && Stored(s, top) && OnPath(s, top, mid) && OnPath(s, top, b) && b.number <= mid.number
    ensures OnPath(s, mid, b) && Path(s, mid) == Path(s, top)[..mid.number + 1]
  {
    PathPrefix(s, top, mid.number);
    assert Path(s, mid)[b.number] == Path(s, top)[..mid.number + 1][b.number];
  }

  lemma OnPathParent(s: Store, top: Block, n: nat, parent: Block)
    requires WellFormed(s) && Stored(s, top) && Rooted(s, top) && 0 < n <= top.number && Path(s, top)[n] in s
    requires Parent(s, s[Path(s, top)[n]]) == Some(parent)
    ensures OnPath(s, top, parent)
  {
    PathPrefix(s, top, n);
    assert Path(s, s[Path(s, top)[n]])[n - 1] == parent.hash;
  }

  /** An answered search from a block of the chain ends on the chain. */
  lemma AnswerOnPath(top: Block, q: Search, floor: nat, head: Block, rootNumber: nat)
    requires WellFormed(q.s) && Stored(q.s, top) && OnPath(q.s, top, q.start) && OnPath(q.s, top, q.genesis)
    requires q.Answer(floor, head, rootNumber)
    ensures OnPath(q.s, top, head) && head.number <= q.start.number
    ensures rootNumber != 0 ==> head.number <= rootNumber && RootAt(q.s, top, rootNumber, q.root)
  {
    if head != q.genesis {
      StepOnPath(top, q, q.start.number - head.number);
    }
    if rootNumber != 0 {
      StepOnPath(top, q, q.start.number - rootNumber);
    }
  }

  lemma StepOnPath(top: Block, q: Search, k: nat)
    requires WellFormed(q.s) && Stored(q.s, top) && OnPath(q.s, top, q.start) && q.Step(k).Some?
    ensures OnPath(q.s, top, q.Step(k).value)
  {
    PathPrefix(q.s, top, q.start.number);
    AncestorOnPath(q.s, q.start, k);
  }

  /** The block at height `n` of the chain has the given state root. */
  ghost predicate RootAt(s: Store, top: Block, n: nat, root: Hash) {
    Rooted(s, top) && n <= top.number && Path(s, top)[n] in s && s[Path(s, top)[n]].root == root
  }

  /** A reported root number is a height of the chain from `top` with that root, at or above the full
      head; zero reports nothing. */
  ghost predicate RootTold(s: Store, top: Block, block: Block, rootNumber: nat, root: Hash) {
    rootNumber != 0 ==> block.number <= rootNumber && RootAt(s, top, rootNumber, root)
  }

  lemma RootAtAbove(s: Store, top: Block, mid: Block, n: nat, root: Hash)
    requires WellFormed(s) && Stored(s, top) && OnPath(s, top, mid) && RootAt(s, mid, n, root)
    ensures RootAt(s, top, n, root)
  {
    OnPathBelow(s, top, mid, mid);
    assert Path(s, mid)[n] == Path(s, top)[..mid.number + 1][n];
  }

  /** The block and all its ancestors have their bodies. */
  ghost predicate HasBodies(s: Store, bodies: set<Hash>, b: Block) {
    Rooted(s, b) && forall n: nat | n <= b.number :: Path(s, b)[n] in bodies
  }

  lemma BodiesBelow(s: Store, bodies: set<Hash>, top: Block, b: Block, c: Block)
    requires WellFormed(s) && Stored(s, top) && OnPath(s, top, b) && OnPath(s, top, c) && c.number <= b.number
    requires HasBodies(s, bodies, b)
    ensures HasBodies(s, bodies, c) && c.hash in bodies
  {
    OnPathBelow(s, top, b, c);
    PathPrefix(s, b, c.number);
    forall n: nat | n <= c.number
      ensures Path(s, c)[n] in bodies
    {
      assert Path(s, c)[n] == Path(s, b)[..c.number + 1][n];
    }
    assert c.hash == Path(s, c)[c.number];
  }

  /** On a rooted chain no walk dead-ends above height zero. */
  lemma NoGap(q: Search, floor: nat)
    requires WellFormed(q.s) && Stored(q.s, q.start) && Rooted(q.s, q.start)
    ensures !exists e: nat :: q.DeadEnd(floor, e)
  {
    forall e: nat
      ensures !q.DeadEnd(floor, e)
    {
      if e < q.start.number {
        AncestorOnPath(q.s, q.start, e + 1);
      }
    }
  }

  /** Cutting a store at a height keeps it well formed and closed. */
  lemma CutStore(s: Store, n: nat)
    requires WellFormed(s) && Closed(s)
    ensures WellFormed(s - From(s, n)) && Closed(s - From(s, n))
  {
    var cut := s - From(s, n);
    forall h | h in cut
      ensures Linked(cut, cut[h]) && (cut[h].number == 0 || Parent(cut, cut[h]).Some?)
    {
      assert Linked(s, s[h]) && (s[h].number == 0 || Parent(s, s[h]).Some?);
    }
  }

  /** The table is the block's path and nothing more. */
  ghost predicate Exact(s: Store, m: map<nat, Hash>, top: Block) {
    Rooted(s, top) && m == Index(Path(s, top))
  }

  /** Every slot names a stored block at its height. */
  ghost predicate Backed(s: Store, m: map<nat, Hash>) {
    forall n: nat | n in m :: m[n] in HashesAt(s, n)
  }

  /** The slots to delete are those above `top`, at every height that has blocks. */
  ghost predicate SlotsAbove(s: Store, top: Block, slots: set<nat>) {
    forall n: nat | HashesAt(s, n) != {} :: n in slots <==> n > top.number
  }

  /** Cutting the slots above `top` out of a table that leads to a longer chain's head, and may reach
      further, leaves `top`'s own. */
  lemma CutTable(s: Store, m: map<nat, Hash>, oldHead: Block, top: Block, slots: set<nat>)
    requires Sound(s, m, oldHead) && Backed(s, m) && OnPath(s, oldHead, top) && SlotsAbove(s, top, slots)
    ensures Rooted(s, top) && m - slots == Index(Path(s, top))
  {
    AncestorsInPlace(s, oldHead, top);
    SoundIsExact(s, m, oldHead);
    forall n: nat | n <= top.number
      ensures n in m && n !in slots && m[n] == Path(s, top)[n]
    {
      assert SlotFilled(m, n) && m[n] in HashesAt(s, n);
    }
    forall n: nat | n in m && n > top.number
      ensures n in slots
    {
      assert m[n] in HashesAt(s, n);
    }
  }

  lemma CutBacked(s: Store, m: map<nat, Hash>, top: nat, slots: set<nat>)
    requires Backed(s, m) && forall n: nat | n in m && n !in slots :: n <= top
    ensures Backed(s - From(s, top + 1), m - slots)
  {
  }

  /** How a node keeps and looks up state. */
  datatype Scheme = Scheme(genesis: Block, pathScheme: bool, pivot: Option<nat>, recoverable: set<Hash>)

  /** The head header, the full head and the snap head. */
  datatype Heads = Heads(header: Block, block: Block, snap: Block)

  predicate Stateful(states: set<Hash>, b: Block) {
    b.number == 0 || b.root in states
  }

  /** The head header and the full head name stored blocks of one chain from genesis. */
  ghost predicate Anchored(s: Store, genesis: Block, hs: Heads) {
    && WellFormed(s) && Closed(s) && Stored(s, hs.header)
    && genesis.number == 0 && OnPath(s, hs.header, genesis) && OnPath(s, hs.header, hs.block)
  }

  /** What holds of the database whenever a batch has just been written: all three heads name
      stored blocks of one chain, none above the head header. */
  ghost predicate Consistent(s: Store, genesis: Block, hs: Heads) {
    Anchored(s, genesis, hs) && OnPath(s, hs.header, hs.snap)
  }

  /** The search that a rewind to `start` makes under the scheme in use, and how far down it goes. */
  ghost predicate Asks(s: Store, c: Scheme, states: set<Hash>, start: Block, root: Hash, q: Search, floor: nat) {
    if c.pathScheme then
      && q == Search(s, c.genesis, start, root, states, states + c.recoverable, root !in states + c.recoverable)
      && floor == PathFloor(c.pivot, start)
    else
      q == Search(s, c.genesis, start, root, states, states, false) && floor == SearchLimit(c.pivot, start)
  }

  /** The full head lands on what that search answers: the highest suitable block. */
  ghost predicate Answered(s: Store, c: Scheme, states: set<Hash>, start: Block, root: Hash, head: Block, rootNumber: nat) {
    forall q: Search, floor: nat | Asks(s, c, states, start, root, q, floor) :: q.Answer(floor, head, rootNumber)
  }

  /** States are never lost, and only recoverable ones are added. */
  ghost predicate Recovered(c: Scheme, states: set<Hash>, after: set<Hash>) {
    && (forall h | h in states :: h in after)
    && (forall h | h in after :: h in states || (c.pathScheme && h in c.recoverable))
  }

  /** Finds the block to rewind to, under the scheme in use. It never runs into a missing
      header, and never ends above height zero without a state. */
  method RewindHead(s: Store, c: Scheme, states: set<Hash>, top: Block, start: Block, root: Hash, recovers: bool)
    returns (ok: bool, head: Block, rootNumber: nat, after: set<Hash>)
    requires WellFormed(s) && Stored(s, top) && OnPath(s, top, start) && OnPath(s, top, c.genesis) && c.genesis.number == 0
    ensures Recovered(c, states, after) && (ok || !recovers)
    ensures ok ==> OnPath(s, top, head) && head.number <= start.number && Stateful(after, head)
    ensures ok && rootNumber != 0 ==> head.number <= rootNumber && RootAt(s, top, rootNumber, root)
    ensures ok ==> Answered(s, c, states, start, root, head, rootNumber)
  {
    var r;
    if c.pathScheme {
      r, after := RewindPathHead(s, c.genesis, states, c.recoverable, c.pivot, start, root, recovers);
      if r.NotRecovered? {
        return false, start, 0, states;
      }
      AnswerOnPath(top, Search(s, c.genesis, start, root, states, states + c.recoverable, root !in states + c.recoverable),
                   PathFloor(c.pivot, start), r.head, r.rootNumber);
    } else {
      after := states;
      r := RewindHashHead(s, c.genesis, states, c.pivot, start, root);
      ghost var q := Search(s, c.genesis, start, root, states, states, false);
      PathPrefix(s, top, start.number);
      NoGap(q, SearchLimit(c.pivot, start));
      AnswerOnPath(top, q, SearchLimit(c.pivot, start), r.head, r.rootNumber);
    }
    ok, head, rootNumber := true, r.head, r.rootNumber;
  }

  /** The full head with its ancestors, and the snap head, have their bodies. */
  ghost predicate Bodied(s: Store, bodies: set<Hash>, hs: Heads) {
    HasBodies(s, bodies, hs.block) && hs.snap.hash in bodies
  }

  /** What moving the head header to `header` does to the full head: a search from there, unless the full
      head is lower already. */
  ghost predicate Searched(s: Store, c: Scheme, states: set<Hash>, header: Block, root: Hash, was: Block, wasNumber: nat, block: Block, rootNumber: nat) {
    if header.number <= was.number then Answered(s, c, states, header, root, block, rootNumber) else block == was && rootNumber == wasNumber
  }

  /** Whether a full head lies below the ancient limit, so that the headers above it must go too. */
  predicate Wipes(c: Scheme, block: Block, limit: nat) {
    block.number + 1 < limit && (c.pivot.None? || block.number >= c.pivot.value)
  }

  /** Lowers the full and snap heads before the head header moves to `header`, and says whether
      rewinding must go on below the ancient limit. The node never has to stop at a block above
      genesis without state. */
  method UpdateHeads(s: Store, c: Scheme, bodies: set<Hash>, frozen: nat, states: set<Hash>, hs: Heads, header: Block,
                     root: Hash, rootNumber: nat, recovers: bool, ghost top: Block)
    returns (ok: bool, after: Heads, states': set<Hash>, rootNumber': nat, force: bool)
    requires Consistent(s, c.genesis, hs) && Bodied(s, bodies, hs) && OnPath(s, hs.header, header)
    requires Stored(s, top) && OnPath(s, top, hs.header) && RootTold(s, top, hs.block, rootNumber, root)
    ensures Recovered(c, states, states') && (ok || !recovers)
    ensures Consistent(s, c.genesis, after) && Bodied(s, bodies, after)
    ensures after.header == hs.header && after.block.number <= hs.block.number
    ensures Stateful(states, hs.block) || (ok && header.number <= hs.block.number) ==> Stateful(states', after.block)
    ensures ok ==> after.block.number <= header.number && after.snap.number <= header.number
    ensures after.snap == if ok && header.number < hs.snap.number then (if header.hash in bodies then header else c.genesis) else hs.snap
    ensures ok ==> (force <==> Wipes(c, after.block, frozen))
    ensures RootTold(s, top, after.block, rootNumber', root)
    ensures if ok then Searched(s, c, states, header, root, hs.block, rootNumber, after.block, rootNumber') else after == hs
  {
    after, states', rootNumber', force := hs, states, rootNumber, false;
    if header.number <= hs.block.number {
      var block, number;
      ok, block, number, states' := RewindHead(s, c, states, hs.header, header, root, recovers);
      if !ok {
        return;
      }
      BodiesBelow(s, bodies, hs.header, hs.block, block);
      if number != 0 {
        RootAtAbove(s, top, hs.header, number, root);
      }
      after, rootNumber' := after.(block := block), number;
    }
    if header.number < hs.snap.number {
      BodiesBelow(s, bodies, hs.header, hs.block, c.genesis);
      after := after.(snap := if header.hash in bodies then header else c.genesis);
    }
    ok := true;
    force := after.block.number + 1 < frozen && (c.pivot.None? || after.block.number >= c.pivot.value);
  }

  /** A full head that is not below what is still to be reached. */
  predicate Reached(block: Block, target: nat, time: nat) {
    if time > 0 then block.time >= time else block.number >= target
  }

  /** Moves the head header down to its parent, lowering the other heads first when asked to.
      Also says how far to go on rewinding. */
  method StepDown(s: Store, c: Scheme, bodies: set<Hash>, frozen: nat, states: set<Hash>, hs: Heads,
                  update: bool, root: Hash, rootNumber: nat, recovers: bool, target: nat, time: nat, ghost top: Block)
    returns (ok: bool, after: Heads, states': set<Hash>, rootNumber': nat, newTarget: nat, newTime: nat)
    requires Anchored(s, c.genesis, hs) && HasBodies(s, bodies, hs.block) && hs.header.number > 0
    requires if update then Consistent(s, c.genesis, hs) && Bodied(s, bodies, hs) else hs.block.number < hs.header.number
    requires Stored(s, top) && OnPath(s, top, hs.header) && RootTold(s, top, hs.block, rootNumber, root)
    ensures Anchored(s, c.genesis, after) && (update ==> Consistent(s, c.genesis, after))
    ensures HasBodies(s, bodies, after.block) && (update ==> after.snap.hash in bodies)
    ensures OnPath(s, hs.header, after.block) && after.block.number <= hs.block.number
    ensures (ok || !recovers) && Recovered(c, states, states') && (Stateful(states, hs.block) ==> Stateful(states', after.block))
    ensures !ok ==> after == hs
    ensures ok && update ==> Searched(s, c, states, after.header, root, hs.block, rootNumber, after.block, rootNumber')
    ensures !update ==> ok && after == hs.(header := after.header) && newTarget == target && newTime == time && states' == states
    ensures ok ==> Parent(s, hs.header) == Some(after.header)
    ensures if ok && update && Wipes(c, after.block, frozen) && !Reached(after.block, target, time)
            then newTarget == after.block.number && newTime == 0
            else newTarget == target && newTime == time
    ensures RootTold(s, top, after.block, rootNumber', root)
  {
    newTarget, newTime, after, states', rootNumber' := target, time, hs, states, rootNumber;
    var parent := match Parent(s, hs.header) case Some(b) => b case None => c.genesis;
    assert OnPath(s, hs.header, parent);
    if update {
      var force;
      ok, after, states', rootNumber', force := UpdateHeads(s, c, bodies, frozen, states, hs, parent, root, rootNumber, recovers, top);
      if !ok {
        return;
      }
      OnPathBelow(s, hs.header, parent, after.snap);
      if force && (if time > 0 then after.block.time < time else after.block.number < target) {
        newTarget, newTime := after.block.number, 0;
      }
    }
    OnPathBelow(s, hs.header, parent, c.genesis);
    OnPathBelow(s, hs.header, parent, after.block);
    after := after.(header := parent);
    ok := true;
  }

  /** Gathers what to delete at height `num`: every block there on any fork and, the first
      time round, everything above. */
  method Collect(s: Store, num: nat, origin: bool) returns (hashes: set<Hash>, slots: set<nat>)
    requires WellFormed(s) && Closed(s)
    ensures hashes == if origin then From(s, num) else HashesAt(s, num)
    ensures num in slots && forall n | n in slots :: n >= num
    ensures if origin then forall n: nat | n >= num && HashesAt(s, n) != {} :: n in slots else slots == {num}
  {
    hashes, slots := HashesAt(s, num), {num};
    if origin {
      var n := num + 1;
      while HashesAt(s, n) != {}
        invariant n > num
        invariant hashes == From(s, num) - From(s, n)
        invariant num in slots && (forall i | i in slots :: i >= num) && forall i | num <= i < n :: i in slots
        decreases From(s, n)
      {
        var h :| h in HashesAt(s, n);
        assert h in From(s, n) && h !in From(s, n + 1) && From(s, n + 1) <= From(s, n);
        hashes, slots := hashes + HashesAt(s, n), slots + {n};
        n := n + 1;
      }
      if From(s, n) != {} {
        var h :| h in From(s, n);
        NothingAbove(s, n, s[h]);
      }
      forall i: nat | i >= n
        ensures HashesAt(s, i) == {}
      {
        assert HashesAt(s, i) <= From(s, n);
      }
    }
  }

  predicate Above(b: Block, target: nat, time: nat) {
    if time > 0 then b.time > time else b.number > target
  }

  /** What the pending deletions amount to once the head header has come down to `header`. */
  ghost predicate Pending(s: Store, header: Block, del: set<Hash>, slots: set<nat>) {
    del == From(s, header.number + 1) && SlotsAbove(s, header, slots)
  }

  /** One more height joins the pending deletions. */
  lemma PendingStep(s: Store, oldHead: Block, header: Block, parent: Block, del: set<Hash>, slots: set<nat>)
    requires WellFormed(s) && Stored(s, oldHead) && OnPath(s, oldHead, header) && Parent(s, header) == Some(parent)
    requires Pending(s, header, del, slots)
    ensures OnPath(s, oldHead, parent)
    ensures Pending(s, parent, del + HashesAt(s, header.number), slots + {header.number})
  {
    OnPathParent(s, oldHead, header.number, parent);
  }

  /** A rewind under way: where the heads are, how far to go, what root was met, and what is pending
      deletion. */
  datatype Progress = Progress(heads: Heads, states: set<Hash>, frozen: nat, target: nat, time: nat, rootNumber: nat,
                               origin: bool, del: set<Hash>, slots: set<nat>)

  /** Where the full head is once the head header has come down to `header`: on the answer to a search from a
      block of the chain between that and the old full head, and from `header` itself unless
      the full head is below it. */
  ghost predicate Lands(s: Store, c: Scheme, from: Progress, root: Hash, header: Block, block: Block, rootNumber: nat) {
    exists start: Block, states: set<Hash> | Answered(s, c, states, start, root, block, rootNumber) ::
      && OnPath(s, from.heads.header, start) && header.number <= start.number <= from.heads.block.number && Recovered(c, from.states, states)
      && (start == header || block.number < header.number)
  }

  /** The full head moves only once the head header has come down to it. */
  ghost predicate Fate(s: Store, c: Scheme, from: Progress, root: Hash, header: Block, block: Block, rootNumber: nat) {
    if header.number <= from.heads.block.number then Lands(s, c, from, root, header, block, rootNumber)
    else block == from.heads.block && rootNumber == from.rootNumber
  }

  /** One more header keeps that so. */
  lemma FateStep(s: Store, c: Scheme, from: Progress, root: Hash, p: Progress, header: Block, block: Block, rootNumber: nat)
    requires OnPath(s, from.heads.header, header) && header.number + 1 == p.heads.header.number
    requires Recovered(c, from.states, p.states) && p.heads.block.number <= from.heads.block.number && block.number <= header.number
    requires if p.origin then p == from else Fate(s, c, from, root, p.heads.header, p.heads.block, p.rootNumber)
    requires Searched(s, c, p.states, header, root, p.heads.block, p.rootNumber, block, rootNumber)
    ensures Fate(s, c, from, root, header, block, rootNumber)
  {
  }

  /** How far down every search from a block goes. */
  ghost function Floor(c: Scheme, b: Block): nat {
    if c.pathScheme then PathFloor(c.pivot, b) else SearchLimit(c.pivot, b)
  }

  lemma Unsuitable(s: Store, c: Scheme, states: set<Hash>, start: Block, block: Block, rootNumber: nat, n: nat)
    requires WellFormed(s) && Stored(s, start) && Rooted(s, start) && Answered(s, c, states, start, ZERO_HASH, block, rootNumber)
    requires block.number < n <= start.number && (block.number > 0 || n >= Floor(c, start))
    ensures Path(s, start)[n] in s && s[Path(s, start)[n]].root !in states
  {
    var q := if c.pathScheme then Search(s, c.genesis, start, ZERO_HASH, states, states + c.recoverable, ZERO_HASH !in states + c.recoverable)
             else Search(s, c.genesis, start, ZERO_HASH, states, states, false);
    assert Asks(s, c, states, start, ZERO_HASH, q, Floor(c, start));
    AncestorOnPath(s, start, start.number - n);
    assert !q.Suitable(start.number - n);
  }

  /** Without a root to pass, no block of the chain above the full head, up to the final head header, had
      its state. */
  lemma NothingBetter(s: Store, c: Scheme, from: Progress, header: Block, block: Block, rootNumber: nat, n: nat)
    requires WellFormed(s) && Stored(s, from.heads.header) && Lands(s, c, from, ZERO_HASH, header, block, rootNumber)
    requires block.number < n <= header.number && (block.number > 0 || n >= Floor(c, from.heads.block))
    ensures n <= from.heads.header.number && Path(s, from.heads.header)[n] in s && s[Path(s, from.heads.header)[n]].root !in from.states
  {
    var start, states :| Answered(s, c, states, start, ZERO_HASH, block, rootNumber)
      && OnPath(s, from.heads.header, start) && header.number <= start.number <= from.heads.block.number && Recovered(c, from.states, states);
    OnPathBelow(s, from.heads.header, start, start);
    Unsuitable(s, c, states, start, block, rootNumber, n);
    assert Path(s, start)[n] == Path(s, from.heads.header)[..start.number + 1][n];
  }

  /** The markers at a batch boundary. A repair leaves the snap head out of account. */
  ghost predicate Boundary(s: Store, bodies: set<Hash>, genesis: Block, update: bool, hs: Heads) {
    && Anchored(s, genesis, hs) && HasBodies(s, bodies, hs.block)
    && (update ==> Consistent(s, genesis, hs) && hs.snap.hash in bodies)
  }

  ghost predicate Boundaries(s: Store, bodies: set<Hash>, genesis: Block, update: bool, trail: seq<Heads>) {
    forall k | 0 <= k < |trail| :: Boundary(s, bodies, genesis, update, trail[k])
  }

  lemma Joined(s: Store, bodies: set<Hash>, genesis: Block, update: bool, trail: seq<Heads>, more: seq<Heads>)
    requires Boundaries(s, bodies, genesis, update, trail) && Boundaries(s, bodies, genesis, update, more)
    ensures Boundaries(s, bodies, genesis, update, trail + more)
  {
  }

  lemma Concatenated<T>(a: seq<T>, b: seq<T>, c: seq<T>)
    ensures a + b + c == a + (b + c)
  {
  }

  /** The full head went no higher, stayed on the chain and kept its state if it had it. */
  ghost predicate Lowered(s: Store, c: Scheme, was: Heads, states: set<Hash>, block: Block, states': set<Hash>) {
    && OnPath(s, was.header, block) && block.number <= was.block.number && Recovered(c, states, states')
    && (Stateful(states, was.block) ==> Stateful(states', block))
  }

  /** Where a rewind that began at `from` has the heads: on one chain, with bodies, and lower. */
  ghost predicate HeadsKept(s: Store, bodies: set<Hash>, c: Scheme, update: bool, root: Hash, from: Progress, p: Progress) {
    && Boundary(s, bodies, c.genesis, update, p.heads) && OnPath(s, from.heads.header, p.heads.header)
    && Lowered(s, c, from.heads, from.states, p.heads.block, p.states)
    && RootTold(s, from.heads.header, p.heads.block, p.rootNumber, root)
  }

  /** What the ancient store keeps of its blocks once everything above `header` is gone. */
  function Truncated(frozen: nat, header: Block): nat {
    if header.number + 1 <= frozen then header.number + 1 else frozen
  }

  /** A height that a rewind may go on to beyond its target: below the ancient limit, not below the pivot. */
  predicate BelowLimit(c: Scheme, from: Progress, n: nat) {
    n + 1 < from.frozen && (c.pivot.None? || n >= c.pivot.value) && (from.time == 0 ==> n < from.target)
  }

  /** What every iteration of a rewind that began at `from` keeps. */
  ghost predicate Underway(s: Store, bodies: set<Hash>, c: Scheme, update: bool, root: Hash, from: Progress, p: Progress) {
    && HeadsKept(s, bodies, c, update, root, from, p)
    && (!update ==> p.heads == from.heads.(header := p.heads.header) && p.states == from.states)
    && (p.origin ==> p == from)
    && (!p.origin ==>
          && Pending(s, p.heads.header, p.del, p.slots)
          && Above(from.heads.header, from.target, from.time)
          && (update ==> Fate(s, c, from, root, p.heads.header, p.heads.block, p.rootNumber))
          && (p.time == 0 ==> p.target <= p.heads.header.number)
          && (update && Wipes(c, p.heads.block, p.frozen) ==> Reached(p.heads.block, p.target, p.time)))
    && p.frozen == (if p.origin then from.frozen else Truncated(from.frozen, p.heads.header))
    && ((p.target == from.target && p.time == from.time) || (update && p.time == 0 && BelowLimit(c, from, p.target)))
  }

  /** One iteration: the markers move down one header in one batch, and its height joins the
      pending deletions. */
  method RewindOne(s: Store, c: Scheme, bodies: set<Hash>, update: bool, root: Hash, recovers: bool,
                   ghost from: Progress, p: Progress)
    returns (ok: bool, q: Progress)
    requires Stored(s, from.heads.header) && from.origin && from.del == {} && from.slots == {}
    requires Underway(s, bodies, c, update, root, from, p) && Above(p.heads.header, p.target, p.time)
    requires from.time > 0 ==> c.genesis.time <= from.time
    requires !update ==> from.time == 0 && from.heads.block.number <= from.target
    ensures ok || (update && !recovers)
    ensures Underway(s, bodies, c, update, root, from, q)
    ensures if ok then q.heads.header.number < p.heads.header.number else q == p
  {
    NotAtZero(s, c.genesis, p.heads, p.target, p.time);
    var header := p.heads.header;
    var after, states, rootNumber, target, time;
    ok, after, states, rootNumber, target, time :=
      StepDown(s, c, bodies, p.frozen, p.states, p.heads, update, root, p.rootNumber, recovers, p.target, p.time, from.heads.header);
    if !ok {
      return false, p;
    }
    var hashes, slots := Collect(s, header.number, p.origin);
    q := Progress(after, states, if header.number + 1 <= p.frozen then header.number else p.frozen, target, time, rootNumber,
                  false, p.del + hashes, p.slots + slots);
    PendingNext(s, from.heads.header, p, q, hashes, slots);
    KeptNext(s, bodies, c, update, root, from, p, q);
    UnderwayNext(s, bodies, c, update, root, from, p, q);
  }

  lemma KeptNext(s: Store, bodies: set<Hash>, c: Scheme, update: bool, root: Hash, from: Progress, p: Progress, q: Progress)
    requires HeadsKept(s, bodies, c, update, root, from, p) && Stored(s, from.heads.header)
    requires Boundary(s, bodies, c.genesis, update, q.heads) && Recovered(c, p.states, q.states)
    requires OnPath(s, from.heads.header, q.heads.header) && OnPath(s, p.heads.header, q.heads.block) && q.heads.block.number <= p.heads.block.number
    requires Stateful(p.states, p.heads.block) ==> Stateful(q.states, q.heads.block)
    requires RootTold(s, from.heads.header, q.heads.block, q.rootNumber, root)
    ensures HeadsKept(s, bodies, c, update, root, from, q)
  {
    BelowTop(s, from.heads.header, p.heads.header, q.heads.block);
  }

  lemma UnderwayNext(s: Store, bodies: set<Hash>, c: Scheme, update: bool, root: Hash, from: Progress, p: Progress, q: Progress)
    requires Underway(s, bodies, c, update, root, from, p) && Above(p.heads.header, p.target, p.time) && from.origin
    requires HeadsKept(s, bodies, c, update, root, from, q)
    requires q.frozen == if p.heads.header.number + 1 <= p.frozen then p.heads.header.number else p.frozen
    requires !q.origin && Pending(s, q.heads.header, q.del, q.slots) && q.heads.header.number + 1 == p.heads.header.number
    requires if update then Searched(s, c, p.states, q.heads.header, root, p.heads.block, p.rootNumber, q.heads.block, q.rootNumber)
             else q.heads == p.heads.(header := q.heads.header) && q.states == p.states
    requires if update && Wipes(c, q.heads.block, p.frozen) && !Reached(q.heads.block, p.target, p.time)
             then q.target == q.heads.block.number && q.time == 0
             else q.target == p.target && q.time == p.time
    ensures Underway(s, bodies, c, update, root, from, q)
  {
    if update {
      FateStep(s, c, from, root, p, q.heads.header, q.heads.block, q.rootNumber);
    }
  }

  /** The deletions that are pending after an iteration. */
  lemma PendingNext(s: Store, top: Block, p: Progress, q: Progress, hashes: set<Hash>, slots: set<nat>)
    requires WellFormed(s) && Stored(s, top) && OnPath(s, top, p.heads.header) && Parent(s, p.heads.header) == Some(q.heads.header)
    requires if p.origin then p.heads.header == top && p.del == {} && p.slots == {} else Pending(s, p.heads.header, p.del, p.slots)
    requires hashes == if p.origin then From(s, p.heads.header.number) else HashesAt(s, p.heads.header.number)
    requires p.heads.header.number in slots && forall n | n in slots :: n >= p.heads.header.number
    requires if p.origin then forall n: nat | n >= top.number && HashesAt(s, n) != {} :: n in slots else slots == {p.heads.header.number}
    requires q.del == p.del + hashes && q.slots == p.slots + slots
    ensures OnPath(s, top, q.heads.header) && Pending(s, q.heads.header, q.del, q.slots)
  {
    if p.origin {
      OnPathParent(s, top, top.number, q.heads.header);
    } else {
      PendingStep(s, top, p.heads.header, q.heads.header, p.del, p.slots);
    }
  }

  lemma BelowTop(s: Store, top: Block, mid: Block, b: Block)
    requires WellFormed(s) && Stored(s, top) && OnPath(s, top, mid) && OnPath(s, mid, b)
    ensures OnPath(s, top, b)
  {
    OnPathBelow(s, top, mid, mid);
    assert Path(s, mid)[b.number] == Path(s, top)[..mid.number + 1][b.number];
  }

  /** The walk never has to go below height zero. */
  lemma NotAtZero(s: Store, genesis: Block, hs: Heads, target: nat, time: nat)
    requires OnPath(s, hs.header, genesis) && Stored(s, hs.header) && genesis.number == 0 && Above(hs.header, target, time)
    requires time > 0 ==> genesis.time <= time
    ensures hs.header.number > 0
  {
  }

  /** Whatever part of the blocks above `top` is deleted, the chain up to it stays. */
  lemma CutOnPath(s: Store, top: Block, gone: set<Hash>, b: Block)
    requires WellFormed(s) && OnPath(s, top, b) && gone <= From(s, top.number + 1)
    ensures OnPath(s - gone, top, b) && Path(s - gone, top) == Path(s, top)
  {
    PathBelow(s, s - gone, top);
  }

  lemma CutBodies(s: Store, bodies: set<Hash>, top: Block, gone: set<Hash>, b: Block)
    requires WellFormed(s) && Stored(s, top) && OnPath(s, top, b) && gone <= From(s, top.number + 1) && HasBodies(s, bodies, b)
    ensures HasBodies(s - gone, bodies - gone, b)
  {
    PathBelow(s, s - gone, b);
    forall n: nat | n <= b.number
      ensures Path(s, b)[n] in bodies - gone
    {
      PathPrefix(s, b, n);
    }
  }

  /** At such a boundary any part of the pending deletions may already have reached the disk, as the
      truncation of the ancient store does at once: the markers still name whole blocks of one
      chain. */
  lemma BoundaryHolds(s: Store, bodies: set<Hash>, genesis: Block, update: bool, hs: Heads, gone: set<Hash>)
    requires Boundary(s, bodies, genesis, update, hs) && gone <= From(s, hs.header.number + 1)
    ensures OnPath(s - gone, hs.header, hs.header) && OnPath(s - gone, hs.header, hs.block)
    ensures HasBodies(s - gone, bodies - gone, hs.block)
    ensures update ==> OnPath(s - gone, hs.header, hs.snap) && hs.snap.hash in bodies - gone
  {
    CutOnPath(s, hs.header, gone, hs.header);
    CutOnPath(s, hs.header, gone, hs.block);
    CutBodies(s, bodies, hs.header, gone, hs.block);
    if update {
      CutOnPath(s, hs.header, gone, hs.snap);
    }
  }

  /** Deleting everything above the head header disturbs no head at or below it. */
  lemma CutHeads(s: Store, bodies: set<Hash>, genesis: Block, hs: Heads, gone: set<Hash>)
    requires Anchored(s, genesis, hs) && HasBodies(s, bodies, hs.block) && gone == From(s, hs.header.number + 1)
    ensures Anchored(s - gone, genesis, hs) && HasBodies(s - gone, bodies - gone, hs.block)
    ensures Path(s - gone, hs.header) == Path(s, hs.header)
    ensures OnPath(s, hs.header, hs.snap) ==> OnPath(s - gone, hs.header, hs.snap)
  {
    CutStore(s, hs.header.number + 1);
    CutOnPath(s, hs.header, gone, genesis);
    CutOnPath(s, hs.header, gone, hs.block);
    CutBodies(s, bodies, hs.header, gone, hs.block);
    if OnPath(s, hs.header, hs.snap) {
      CutOnPath(s, hs.header, gone, hs.snap);
    }
  }

  /** Where a rewind from `from` ends: at or below the target, with nothing above the final head; or
      below the ancient limit, when the target itself was moved there. It goes on until the full head is
      not below that limit or no header is above it; only a full head as late as the time asked for
      may stay below. A head that was not above the target stays. */
  ghost predicate Rewound(s: Store, c: Scheme, update: bool, from: Progress, header: Block, block: Block, frozen: nat, after: Store) {
    if Above(from.heads.header, from.target, from.time) then
      && after == s - From(s, header.number + 1) && frozen == Truncated(from.frozen, header)
      && (!Above(header, from.target, from.time) || (update && BelowLimit(c, from, header.number)))
      && (from.time == 0 ==> header.number == from.target || (update && BelowLimit(c, from, header.number)))
      && (update && Wipes(c, block, frozen) ==> header.number == block.number || (from.time > 0 && block.time >= from.time))
    else
      after == s && header == from.heads.header && frozen == from.frozen
  }

  /** Where the rewind leaves the full head: in place, unless the head header came down to it. */
  ghost predicate Placed(s: Store, c: Scheme, from: Progress, root: Hash, header: Block, block: Block, rootNumber: nat) {
    if Above(from.heads.header, from.target, from.time) then Fate(s, c, from, root, header, block, rootNumber)
    else block == from.heads.block && rootNumber == from.rootNumber
  }

  lemma LandedWhere(s: Store, bodies: set<Hash>, c: Scheme, update: bool, root: Hash, from: Progress, p: Progress)
    requires from.origin && from.del == {}
    requires Underway(s, bodies, c, update, root, from, p) && !Above(p.heads.header, p.target, p.time)
    ensures Rewound(s, c, update, from, p.heads.header, p.heads.block, p.frozen, s - p.del)
    ensures if Above(from.heads.header, from.target, from.time) then !p.origin && p.del == From(s, p.heads.header.number + 1) else p == from
  {
    if p.origin {
      assert s - p.del == s;
    }
  }

  /** What a rewind deletes leaves every head in place. */
  lemma Landed(s: Store, bodies: set<Hash>, c: Scheme, update: bool, root: Hash, from: Progress, p: Progress)
    requires Consistent(s, c.genesis, from.heads) && from.origin && from.del == {}
    requires Underway(s, bodies, c, update, root, from, p)
    ensures var after := s - p.del;
            && Anchored(after, c.genesis, p.heads) && HasBodies(after, bodies - p.del, p.heads.block)
            && (update || p.heads.snap.number <= p.heads.header.number ==> Consistent(after, c.genesis, p.heads))
  {
    if p.origin {
      assert s - p.del == s && bodies - p.del == bodies;
    } else {
      if p.heads.snap.number <= p.heads.header.number && !update {
        OnPathBelow(s, from.heads.header, p.heads.header, p.heads.snap);
      }
      CutHeads(s, bodies, c.genesis, p.heads, p.del);
    }
  }

  /** It also leaves the final head's own table, whatever the old one held above the head. */
  lemma LandedTable(s: Store, m: map<nat, Hash>, genesis: Block, oldHead: Block, hs: Heads, del: set<Hash>, slots: set<nat>)
    requires Sound(s, m, oldHead) && Backed(s, m) && Anchored(s, genesis, hs) && OnPath(s, oldHead, hs.header)
    requires Pending(s, hs.header, del, slots)
    ensures var after := s - del;
            && Sound(after, m - slots, hs.header) && Backed(after, m - slots)
            && Rooted(after, hs.header) && m - slots == Index(Path(after, hs.header))
  {
    CutTable(s, m, oldHead, hs.header, slots);
    CutBacked(s, m, hs.header.number, slots);
    CutStore(s, hs.header.number + 1);
    CutOnPath(s, hs.header, del, hs.header);
    ExactIsSound(s - del, m - slots, hs.header, hs.header);
  }

  /** A block that cannot be read back in full. */
  predicate Missing(s: Store, bodies: set<Hash>, b: Block) {
    b.hash !in s || b.hash !in bodies
  }

  /** The markers on disk follow those in memory; a stranded snap marker stays until the snap head is
      lowered, and a repair does not touch it. */
  ghost predicate Followed(hs: Heads, disk: Heads, was: Heads, stranded: bool, update: bool) {
    && disk.header == hs.header && disk.block == hs.block
    && (disk.snap == hs.snap || (disk.snap == was.snap && stranded))
    && (!update ==> disk.snap == was.snap)
  }

  lemma StartsUnderway(s: Store, bodies: set<Hash>, c: Scheme, update: bool, root: Hash, from: Progress)
    requires Consistent(s, c.genesis, from.heads) && Bodied(s, bodies, from.heads)
    requires from.origin && from.del == {} && from.slots == {} && from.rootNumber == 0
    ensures Underway(s, bodies, c, update, root, from, from)
  {
  }

  lemma SnapKept(s: Store, bodies: set<Hash>, c: Scheme, update: bool, root: Hash, from: Progress, p: Progress)
    requires Consistent(s, c.genesis, from.heads) && Bodied(s, bodies, from.heads) && from.del == {}
    requires Underway(s, bodies, c, update, root, from, p)
    ensures update || p.heads.snap.number <= p.heads.header.number ==> p.heads.snap.hash in bodies - p.del
  {
  }

  /** What the table becomes: untouched if nothing was above the target, else the final head's path. */
  lemma Retabled(s: Store, m: map<nat, Hash>, genesis: Block, from: Progress, p: Progress)
    requires Sound(s, m, from.heads.header) && Backed(s, m) && Anchored(s, genesis, p.heads) && OnPath(s, from.heads.header, p.heads.header)
    requires from.del == {} && from.slots == {}
    requires if p.origin then p == from else Pending(s, p.heads.header, p.del, p.slots)
    ensures var after := s - p.del;
            && Sound(after, m - p.slots, p.heads.header) && Backed(after, m - p.slots)
            && (if p.origin then after == s && m - p.slots == m else m - p.slots == Index(Path(after, p.heads.header)))
  {
    if p.origin {
      assert s - p.del == s && m - p.slots == m;
    } else {
      LandedTable(s, m, genesis, from.heads.header, p.heads, p.del, p.slots);
    }
  }

  /** How a rewind leaves the database. */
  ghost predicate CutClean(s: Store, bodies: set<Hash>, m: map<nat, Hash>, genesis: Block, update: bool, hs: Heads) {
    && Anchored(s, genesis, hs) && HasBodies(s, bodies, hs.block) && bodies <= s.Keys
    && Sound(s, m, hs.header) && Backed(s, m)
    && (update || hs.snap.number <= hs.header.number ==> Consistent(s, genesis, hs) && hs.snap.hash in bodies)
  }

  lemma CutsClean(s: Store, bodies: set<Hash>, m: map<nat, Hash>, c: Scheme, update: bool, root: Hash, from: Progress, p: Progress)
    requires Consistent(s, c.genesis, from.heads) && Bodied(s, bodies, from.heads) && bodies <= s.Keys
    requires Sound(s, m, from.heads.header) && Backed(s, m)
    requires from.origin && from.del == {} && from.slots == {} && Underway(s, bodies, c, update, root, from, p)
    ensures CutClean(s - p.del, bodies - p.del, m - p.slots, c.genesis, update, p.heads)
    ensures if p.origin then s - p.del == s && m - p.slots == m else m - p.slots == Index(Path(s - p.del, p.heads.header))
  {
    Landed(s, bodies, c, update, root, from, p);
    SnapKept(s, bodies, c, update, root, from, p);
    Retabled(s, m, c.genesis, from, p);
  }

  /** What a finished rewind comes to: the headers, bodies and table it leaves, and where the full head
      is. */
  ghost predicate Outcome(s: Store, bodies: set<Hash>, m: map<nat, Hash>, c: Scheme, update: bool, root: Hash, from: Progress,
                          hs: Heads, rootNumber: nat, frozen: nat, s': Store, bodies': set<Hash>, m': map<nat, Hash>) {
    && Rewound(s, c, update, from, hs.header, hs.block, frozen, s') && CutClean(s', bodies', m', c.genesis, update, hs)
    && (if update then Placed(s, c, from, root, hs.header, hs.block, rootNumber) else hs == from.heads.(header := hs.header))
    && if Above(from.heads.header, from.target, from.time)
       then bodies' == bodies - From(s, hs.header.number + 1) && Exact(s', m', hs.header)
       else hs == from.heads && bodies' == bodies && m' == m
  }

  lemma RewindEnds(s: Store, bodies: set<Hash>, m: map<nat, Hash>, c: Scheme, update: bool, root: Hash, from: Progress, p: Progress)
    requires Consistent(s, c.genesis, from.heads) && Bodied(s, bodies, from.heads) && bodies <= s.Keys
    requires Sound(s, m, from.heads.header) && Backed(s, m)
    requires from.origin && from.del == {} && from.slots == {} && Underway(s, bodies, c, update, root, from, p)
    requires !Above(p.heads.header, p.target, p.time)
    ensures Outcome(s, bodies, m, c, update, root, from, p.heads, p.rootNumber, p.frozen, s - p.del, bodies - p.del, m - p.slots)
  {
    LandedWhere(s, bodies, c, update, root, from, p);
    CutsClean(s, bodies, m, c, update, root, from, p);
    if p.origin {
      assert bodies - p.del == bodies;
    }
  }

  /** What a rewind comes to, with the head header at `header` and the full head at `block`. */
  ghost predicate Moved(s: Store, m: map<nat, Hash>, c: Scheme, root: Hash, from: Progress, header: Block, block: Block, rootNumber: nat,
                        frozen: nat, s': Store, m': map<nat, Hash>) {
    && RootTold(s, from.heads.header, block, rootNumber, root)
    && Rewound(s, c, true, from, header, block, frozen, s') && Placed(s, c, from, root, header, block, rootNumber)
    && (Exact(s', m', header) <==> Exact(s, m, from.heads.header) || Above(from.heads.header, from.target, from.time))
  }

  class Chain {
    const scheme: Scheme
    var headers: Store
    var bodies: set<Hash>
    var tds: set<Hash>
    var canonical: map<nat, Hash>
    var txIndex: map<Hash, nat>
    var heads: Heads
    // The markers on disk; those in memory follow them except where the disk names a missing block.
    var disk: Heads
    var states: set<Hash>
    // Blocks below this height live in the ancient store.
    var frozen: nat
    // The heads after each batch of markers.
    ghost var batches: seq<Heads>

    /** The heads in memory name whole blocks of one chain, none above the head header, and the full
        head has all its ancestors. */
    ghost predicate HeadsConsistent()
      reads this
    {
      Consistent(headers, scheme.genesis, heads) && Bodied(headers, bodies, heads)
    }

    /** The canonical table holds the head header's path, names stored blocks only, and may reach
        further; every header has its difficulty. */
    ghost predicate Indexed()
      reads this
    {
      Sound(headers, canonical, heads.header) && Backed(headers, canonical) && tds == headers.Keys && bodies <= headers.Keys
    }

    /** The snap marker on disk names a block that is gone. */
    predicate Stranded()
      reads this
    {
      Missing(headers, bodies, disk.snap)
    }

    /** Disk and memory agree, but for a stranded snap marker. */
    ghost predicate InStep()
      reads this
    {
      disk.header == heads.header && disk.block == heads.block && (disk.snap == heads.snap || Stranded())
    }

    /** A rewind that has not begun. */
    function Started(target: nat, time: nat): Progress
      reads this
    {
      Progress(heads, states, frozen, target, time, 0, true, {}, {})
    }

    /** One batch moves the markers in memory and on disk; the snap marker is written only when the
        snap head is lowered. */
    method WriteMarkers(p: Progress)
      modifies `heads, `disk, `states, `frozen, `batches
      ensures heads == p.heads && states == p.states && frozen == p.frozen && batches == old(batches) + [heads]
      ensures disk == Heads(p.heads.header, p.heads.block, if p.heads.snap == old(heads).snap then old(disk).snap else p.heads.snap)
    {
      disk := Heads(p.heads.header, p.heads.block, if p.heads.snap == heads.snap then disk.snap else p.heads.snap);
      heads, states, frozen := p.heads, p.states, p.frozen;
      batches := batches + [heads];
    }

    /** Writes all accumulated deletions. */
    method Flush(p: Progress)
      modifies `headers, `bodies, `tds, `canonical
      ensures headers == old(headers) - p.del && tds == old(tds) - p.del && bodies == old(bodies) - p.del
      ensures canonical == old(canonical) - p.slots
    {
      headers, tds, bodies, canonical := headers - p.del, tds - p.del, bodies - p.del, canonical - p.slots;
    }

    /** Rewinds the chain to a height, or to a time; when the head was above the target, nothing above
        the final head survives, and the canonical table is that head's path; otherwise the table is
        not touched. `trail` lists the markers after each batch. */
    method SetHead(target: nat, time: nat, update: bool, root: Hash, recovers: bool)
      returns (ok: bool, rootNumber: nat, ghost trail: seq<Heads>)
      requires HeadsConsistent() && Indexed() && InStep()
      requires !update ==> time == 0 && heads.block.number <= target
      modifies `headers, `bodies, `tds, `canonical, `heads, `disk, `states, `frozen, `batches
      ensures !ok ==> Boundary(headers, bodies, scheme.genesis, update, heads)
      ensures Lowered(old(headers), scheme, old(heads), old(states), heads.block, states)
      ensures Followed(heads, disk, old(disk), old(Stranded()), update)
      ensures ok || (update && (!recovers || (time > 0 && scheme.genesis.time > time)))
      ensures !update ==> states == old(states)
      ensures ok ==> RootTold(old(headers), old(heads).header, heads.block, rootNumber, root) && tds == headers.Keys
      ensures ok ==>
                Outcome(old(headers), old(bodies), old(canonical), scheme, update, root, old(Started(target, time)), heads, rootNumber, frozen,
                        headers, bodies, canonical)
      ensures batches == old(batches) + trail && Boundaries(old(headers), old(bodies), scheme.genesis, update, trail)
    {
      rootNumber, trail := 0, [];
      if time > 0 && scheme.genesis.time > time {
        return false, rootNumber, trail;
      }
      var p;
      ok, p, trail := RewindHeaders(target, time, update, root, recovers);
      rootNumber := p.rootNumber;
      if !ok {
        return;
      }
      Flush(p);
    }

    /** Rewinds the headers, and says what is left to delete. */
    method RewindHeaders(target: nat, time: nat, update: bool, root: Hash, recovers: bool)
      returns (ok: bool, p: Progress, ghost trail: seq<Heads>)
      requires HeadsConsistent() && Indexed() && InStep() && (time > 0 ==> scheme.genesis.time <= time)
      requires !update ==> time == 0 && heads.block.number <= target
      modifies `heads, `disk, `states, `frozen, `batches
      ensures ok || (update && !recovers)
      ensures heads == p.heads && Lowered(headers, scheme, old(heads), old(states), heads.block, states)
      ensures if ok then RootTold(headers, old(heads).header, heads.block, p.rootNumber, root) else Boundary(headers, bodies, scheme.genesis, update, heads)
      ensures Followed(heads, disk, old(disk), old(Stranded()), update)
      ensures batches == old(batches) + trail && Boundaries(headers, bodies, scheme.genesis, update, trail)
      ensures ok ==>
                Outcome(headers, bodies, canonical, scheme, update, root, old(Started(target, time)), heads, p.rootNumber, frozen,
                        headers - p.del, bodies - p.del, canonical - p.slots)
      ensures !update ==> states == old(states)
    {
      var from := Started(target, time);
      StartsUnderway(headers, bodies, scheme, update, root, from);
      ok, p, trail := Descend(from, update, root, recovers);
      if ok {
        RewindEnds(headers, bodies, canonical, scheme, update, root, from, p);
      }
    }

    /** Moves the head header down until the target is reached; each iteration writes one batch
        of markers. */
    method Descend(start: Progress, update: bool, root: Hash, recovers: bool)
      returns (ok: bool, p: Progress, ghost trail: seq<Heads>)
      requires Stored(headers, start.heads.header) && start.origin && start.del == {} && start.slots == {}
      requires Underway(headers, bodies, scheme, update, root, start, start)
      requires start.time > 0 ==> scheme.genesis.time <= start.time
      requires !update ==> start.time == 0 && start.heads.block.number <= start.target
      requires heads == start.heads && states == start.states && frozen == start.frozen && InStep()
      modifies `heads, `disk, `states, `frozen, `batches
      ensures ok || (update && !recovers)
      ensures Underway(headers, bodies, scheme, update, root, start, p)
      ensures heads == p.heads && states == p.states && (ok ==> frozen == p.frozen && !Above(p.heads.header, p.target, p.time))
      ensures Followed(heads, disk, old(disk), old(Stranded()), update)
      ensures batches == old(batches) + trail && Boundaries(headers, bodies, scheme.genesis, update, trail)
    {
      p, trail := start, [];
      while Above(p.heads.header, p.target, p.time)
        invariant Underway(headers, bodies, scheme, update, root, start, p)
        invariant heads == p.heads && states == p.states && frozen == p.frozen
        invariant Followed(heads, disk, old(disk), old(Stranded()), update)
        invariant batches == old(batches) + trail && Boundaries(headers, bodies, scheme.genesis, update, trail)
        decreases p.heads.header.number
      {
        ok, p, trail := Iterate(start, p, update, root, recovers, old(disk), old(Stranded()), trail);
        if !ok {
          return;
        }
      }
      ok := true;
    }

    /** One iteration with its batch. */
    method Iterate(ghost start: Progress, p: Progress, update: bool, root: Hash, recovers: bool, ghost was: Heads, ghost stranded: bool,
                   ghost before: seq<Heads>)
      returns (ok: bool, q: Progress, ghost trail: seq<Heads>)
      requires Stored(headers, start.heads.header) && start.origin && start.del == {} && start.slots == {}
      requires Underway(headers, bodies, scheme, update, root, start, p) && Above(p.heads.header, p.target, p.time)
      requires start.time > 0 ==> scheme.genesis.time <= start.time
      requires !update ==> start.time == 0 && start.heads.block.number <= start.target
      requires heads == p.heads && Followed(heads, disk, was, stranded, update) && Boundaries(headers, bodies, scheme.genesis, update, before)
      modifies `heads, `disk, `states, `frozen, `batches
      ensures ok || (update && !recovers)
      ensures Underway(headers, bodies, scheme, update, root, start, q)
      ensures ok ==> q.heads.header.number < p.heads.header.number
      ensures heads == q.heads && states == q.states && frozen == q.frozen && Followed(heads, disk, was, stranded, update)
      ensures trail == before + [q.heads] && batches == old(batches) + [q.heads] && Boundaries(headers, bodies, scheme.genesis, update, trail)
    {
      ok, q := RewindOne(headers, scheme, bodies, update, root, recovers, start, p);
      WriteMarkers(q);
      Joined(headers, bodies, scheme.genesis, update, before, [q.heads]);
      trail := before + [q.heads];
    }

    /** Reads the markers back. The full head is always there, so the chain is never reset to genesis;
        a stranded snap marker falls back to it in memory. */
    method LoadLastState()
      requires Anchored(headers, scheme.genesis, disk) && HasBodies(headers, bodies, disk.block)
      requires Stranded() || OnPath(headers, disk.header, disk.snap)
      modifies `heads
      ensures heads == disk.(snap := if Stranded() then disk.block else disk.snap)
      ensures HeadsConsistent() && InStep()
    {
      assert disk.block.hash == Path(headers, disk.block)[disk.block.number];
      var present := disk.block.hash in headers && disk.block.hash in bodies;
      assert present;
      heads := Heads(if disk.header.hash in headers then disk.header else disk.block, disk.block, disk.block);
      if !Missing(headers, bodies, disk.snap) {
        heads := heads.(snap := disk.snap);
      }
    }

    /** Lowers the full and snap heads from the current block down, in one batch. */
    method LowerHeads(root: Hash, recovers: bool) returns (ok: bool, rootNumber: nat, force: bool, ghost trail: seq<Heads>)
      requires HeadsConsistent() && InStep()
      modifies `heads, `disk, `states, `frozen, `batches
      ensures HeadsConsistent() && heads.header == old(heads).header && frozen == old(frozen)
      ensures Lowered(old(headers), scheme, old(heads), old(states), heads.block, states)
      ensures ok ==> Stateful(states, heads.block)
      ensures ok || !recovers
      ensures RootTold(headers, heads.header, heads.block, rootNumber, root)
      ensures ok ==> Answered(headers, scheme, old(states), old(heads).block, root, heads.block, rootNumber)
      ensures batches == old(batches) + trail && Boundaries(headers, bodies, scheme.genesis, false, trail)
      ensures InStep() && (ok ==> (force <==> Wipes(scheme, heads.block, frozen)))
      ensures ok ==> disk.snap == if old(heads).block.number < old(heads).snap.number then old(heads).block else old(disk).snap
      ensures ok ==> (Stranded() <==> old(Stranded()) && old(heads).block.number >= old(heads).snap.number)
    {
      BodiesBelow(headers, bodies, heads.header, heads.block, heads.block);
      var after, states';
      ok, after, states', rootNumber, force := UpdateHeads(headers, scheme, bodies, frozen, states, heads, heads.block, root, 0, recovers, heads.header);
      WriteMarkers(Started(0, 0).(heads := after, states := states'));
      trail := [heads];
    }

    /** Lowers the heads, and removes the headers above only below the ancient limit. */
    method Repair(root: Hash, recovers: bool) returns (ok: bool, rootNumber: nat, ghost trail: seq<Heads>)
      requires HeadsConsistent() && Indexed() && InStep()
      modifies `headers, `bodies, `tds, `canonical, `heads, `disk, `states, `frozen, `batches
      ensures HeadsConsistent() && (ok ==> Indexed() && InStep())
      ensures Lowered(old(headers), scheme, old(heads), old(states), heads.block, states)
      ensures ok ==> Stateful(states, heads.block)
      ensures ok || !recovers
      ensures ok ==> RootTold(old(headers), old(heads).header, heads.block, rootNumber, root)
      ensures ok ==> Answered(old(headers), scheme, old(states), old(heads).block, root, heads.block, rootNumber)
      ensures ok ==>
                && headers == (if Wipes(scheme, heads.block, old(frozen)) && old(heads).header.number > heads.block.number then old(headers) - From(old(headers), heads.block.number + 1) else old(headers))
                && heads.header.number == (if Wipes(scheme, heads.block, old(frozen)) then heads.block.number else old(heads).header.number)
                && frozen == (if Wipes(scheme, heads.block, old(frozen)) && old(heads).header.number > heads.block.number then heads.block.number + 1 else old(frozen))
                && (Exact(headers, canonical, heads.header) <==> Exact(old(headers), old(canonical), old(heads).header) || (Wipes(scheme, heads.block, old(frozen)) && old(heads).header.number > heads.block.number))
                && disk.snap == (if old(heads).block.number < old(heads).snap.number then old(heads).block else old(disk).snap)
                && (Stranded() <==>
                    || (Wipes(scheme, heads.block, old(frozen)) && disk.snap.number > heads.block.number)
                    || (old(Stranded()) && old(heads).block.number >= old(heads).snap.number))
      ensures batches == old(batches) + trail && Boundaries(old(headers), old(bodies), scheme.genesis, false, trail)
    {
      var force;
      ok, rootNumber, force, trail := LowerHeads(root, recovers);
      if ok {
        trail := WipeAndReload(force, root, recovers, old(batches), trail);
      }
    }

    /** Removes the headers above the full head if asked to, and reads the markers back. */
    method WipeAndReload(wipe: bool, root: Hash, recovers: bool, ghost first: seq<Heads>, ghost before: seq<Heads>) returns (ghost trail: seq<Heads>)
      requires HeadsConsistent() && Indexed() && InStep() && batches == first + before && Boundaries(headers, bodies, scheme.genesis, false, before)
      modifies `headers, `bodies, `tds, `canonical, `heads, `disk, `states, `frozen, `batches
      ensures HeadsConsistent() && Indexed() && InStep()
      ensures heads.block == old(heads).block && disk.snap == old(disk).snap && states == old(states)
      ensures heads.header.number == if wipe then heads.block.number else old(heads).header.number
      ensures headers == if wipe && old(heads).header.number > heads.block.number then old(headers) - From(old(headers), heads.block.number + 1) else old(headers)
      ensures Exact(headers, canonical, heads.header) <==> Exact(old(headers), old(canonical), old(heads).header) || (wipe && old(heads).header.number > heads.block.number)
      ensures frozen == if wipe && old(heads).header.number > heads.block.number then Truncated(old(frozen), heads.block) else old(frozen)
      ensures Stranded() <==> old(Stranded()) || (wipe && disk.snap.number > heads.block.number)
      ensures batches == first + trail && Boundaries(old(headers), old(bodies), scheme.genesis, false, trail)
    {
      trail := before;
      if wipe {
        ghost var more := Wipe(root, recovers);
        Joined(old(headers), old(bodies), scheme.genesis, false, before, more);
        Concatenated(first, before, more);
        trail := before + more;
      }
      LoadLastState();
    }

    /** Removes the headers above the full head. */
    method Wipe(root: Hash, recovers: bool) returns (ghost trail: seq<Heads>)
      requires HeadsConsistent() && Indexed() && InStep()
      modifies `headers, `bodies, `tds, `canonical, `heads, `disk, `states, `frozen, `batches
      ensures Anchored(headers, scheme.genesis, heads) && HasBodies(headers, bodies, heads.block) && Indexed()
      ensures heads == old(heads).(header := heads.header) && states == old(states)
      ensures disk == old(disk).(header := heads.header) && heads.header.number == heads.block.number
      ensures headers == if old(heads).header.number > heads.block.number then old(headers) - From(old(headers), heads.block.number + 1) else old(headers)
      ensures Exact(headers, canonical, heads.header) <==> Exact(old(headers), old(canonical), old(heads).header) || old(heads).header.number > heads.block.number
      ensures frozen == if old(heads).header.number > heads.block.number then Truncated(old(frozen), heads.block) else old(frozen)
      ensures Stranded() <==> old(Stranded()) || disk.snap.number > heads.block.number
      ensures Stranded() || OnPath(headers, heads.header, disk.snap)
      ensures batches == old(batches) + trail && Boundaries(old(headers), old(bodies), scheme.genesis, false, trail)
    {
      var ok, number;
      ok, number, trail := SetHead(heads.block.number, 0, false, root, recovers);
    }

    /** Rewinds with the heads updated on the way. */
    method Rewind(target: nat, time: nat, root: Hash, recovers: bool)
      returns (ok: bool, rootNumber: nat, ghost trail: seq<Heads>)
      requires HeadsConsistent() && Indexed() && InStep()
      modifies `headers, `bodies, `tds, `canonical, `heads, `disk, `states, `frozen, `batches
      ensures HeadsConsistent() && (ok ==> Indexed() && InStep() && (Stranded() || OnPath(headers, disk.header, disk.snap)))
      ensures Lowered(old(headers), scheme, old(heads), old(states), heads.block, states)
      ensures ok || !recovers || (time > 0 && scheme.genesis.time > time)
      ensures ok ==> Moved(old(headers), old(canonical), scheme, root, old(Started(target, time)), heads.header, heads.block, rootNumber, frozen, headers, canonical)
      ensures ok && Stranded() ==> old(Stranded()) && disk.snap == old(disk).snap
      ensures batches == old(batches) + trail && Boundaries(old(headers), old(bodies), scheme.genesis, true, trail)
    {
      ok, rootNumber, trail := SetHead(target, time, true, root, recovers);
    }

    /** The same, with the markers read back. */
    method RewindAndReload(target: nat, time: nat, root: Hash, recovers: bool)
      returns (ok: bool, rootNumber: nat, ghost trail: seq<Heads>)
      requires HeadsConsistent() && Indexed() && InStep()
      modifies `headers, `bodies, `tds, `canonical, `heads, `disk, `states, `frozen, `batches
      ensures HeadsConsistent() && (ok ==> Indexed() && InStep())
      ensures Lowered(old(headers), scheme, old(heads), old(states), heads.block, states)
      ensures ok || !recovers || (time > 0 && scheme.genesis.time > time)
      ensures ok ==> Moved(old(headers), old(canonical), scheme, root, old(Started(target, time)), heads.header, heads.block, rootNumber, frozen, headers, canonical)
      ensures ok && Stranded() ==> old(Stranded()) && disk.snap == old(disk).snap
      ensures batches == old(batches) + trail && Boundaries(old(headers), old(bodies), scheme.genesis, true, trail)
    {
      ok, rootNumber, trail := Rewind(target, time, root, recovers);
      if ok {
        LoadLastState();
      }
    }

    /** The whole rewind. On every return the heads in memory are consistent, and at every batch
        boundary on the way those on disk were. A rewind lands where it was told to. A repair only
        lowers the heads below the current block, and touches headers and table when it lands below
        the ancient limit; the snap marker on disk is then left alone, so it is stranded exactly when it
        names a block above the landing block. The lookup index is not touched. */
    method SetHeadBeyondRoot(target: nat, time: nat, root: Hash, repair: bool, recovers: bool)
      returns (ok: bool, rootNumber: nat, ghost trail: seq<Heads>)
      requires HeadsConsistent() && Indexed() && InStep()
      modifies `headers, `bodies, `tds, `canonical, `heads, `disk, `states, `frozen, `batches
      ensures HeadsConsistent() && (ok ==> Indexed() && InStep())
      ensures Lowered(old(headers), scheme, old(heads), old(states), heads.block, states)
      ensures ok && repair ==> Stateful(states, heads.block)
      ensures ok ==> RootTold(old(headers), old(heads).header, heads.block, rootNumber, root)
      ensures ok || !recovers || (!repair && time > 0 && scheme.genesis.time > time)
      ensures ok && !repair ==>
                Moved(old(headers), old(canonical), scheme, root, old(Started(target, time)), heads.header, heads.block, rootNumber, frozen, headers, canonical)
      ensures ok && repair ==> Answered(old(headers), scheme, old(states), old(heads).block, root, heads.block, rootNumber)
      ensures ok && !repair && Stranded() ==> old(Stranded()) && disk.snap == old(disk).snap
      ensures ok && repair ==>
                && headers == (if Wipes(scheme, heads.block, old(frozen)) && old(heads).header.number > heads.block.number then old(headers) - From(old(headers), heads.block.number + 1) else old(headers))
                && heads.header.number == (if Wipes(scheme, heads.block, old(frozen)) then heads.block.number else old(heads).header.number)
                && frozen == (if Wipes(scheme, heads.block, old(frozen)) && old(heads).header.number > heads.block.number then heads.block.number + 1 else old(frozen))
                && (Exact(headers, canonical, heads.header) <==> Exact(old(headers), old(canonical), old(heads).header) || (Wipes(scheme, heads.block, old(frozen)) && old(heads).header.number > heads.block.number))
                && disk.snap == (if old(heads).block.number < old(heads).snap.number then old(heads).block else old(disk).snap)
                && (Stranded() <==>
                    || (Wipes(scheme, heads.block, old(frozen)) && disk.snap.number > heads.block.number)
                    || (old(Stranded()) && old(heads).block.number >= old(heads).snap.number))
      ensures batches == old(batches) + trail && Boundaries(old(headers), old(bodies), scheme.genesis, !repair, trail)
    {
      if repair {
        ok, rootNumber, trail := Repair(root, recovers);
      } else {
        ok, rootNumber, trail := RewindAndReload(target, time, root, recovers);
      }
    }
  }

  // ---- What a rewind leaves to the block chain ----

  /** The blocks that can be read in full. */
  function Whole(s: Store, bodies: set<Hash>): Store {
    map h | h in s && h in bodies :: s[h]
  }

  lemma {:induction false} WholePath(s: Store, bodies: set<Hash>, b: Block)
    requires WellFormed(s) && Stored(s, b) && HasBodies(s, bodies, b)
    ensures Rooted(Whole(s, bodies), b) && Path(Whole(s, bodies), b) == Path(s, b) && Stored(Whole(s, bodies), b)
    decreases b.number
  {
    assert Path(s, b)[b.number] == b.hash;
    if b.number > 0 {
      var parent := Parent(s, b).value;
      assert forall n: nat | n <= parent.number :: Path(s, parent)[n] == Path(s, b)[n];
      WholePath(s, bodies, parent);
    }
  }

  /** The block chain can go on from where any rewind ends: the table holds the full head's path, and is
      the head header's exactly when it reaches no further. */
  lemma RewoundIsSound(c: Chain)
    requires c.HeadsConsistent() && c.Indexed()
    ensures Sound(Whole(c.headers, c.bodies), c.canonical, c.heads.block)
    ensures Exact(c.headers, c.canonical, c.heads.header) <==> |c.canonical| == c.heads.header.number + 1
  {
    var s, whole := c.headers, Whole(c.headers, c.bodies);
    assert forall h | h in whole :: Linked(s, s[h]);
    assert forall h | h in whole :: Linked(whole, whole[h]);
    SoundIsExact(s, c.canonical, c.heads.header);
    AncestorsInPlace(s, c.heads.header, c.heads.block);
    WholePath(s, c.bodies, c.heads.block);
  }

  lemma SameTxs(s: Store, t: Store, top: Block, b: Block, n: nat, x: Hash)
    requires WellFormed(s) && Stored(s, top) && OnPath(s, top, b)
    requires WellFormed(t) && Stored(t, b) && Rooted(t, b) && forall h | h in t :: h in s && s[h] == t[h]
    ensures BlockChains.TxAt(t, b, n, x) <==> n <= b.number && BlockChains.TxAt(s, top, n, x)
  {
    if n <= b.number {
      PathGrows(t, s, b);
      OnPathBelow(s, top, b, b);
      PathPrefix(t, b, n);
      assert Path(s, b)[n] == Path(s, top)[..b.number + 1][n];
    }
  }

  /** The entries of dropped blocks linger: an index that was whole for the old full head still finds
      every transaction of the new one, and is whole for it exactly when no dropped block held a
      transaction. `s` and `t` are the blocks before and after. */
  lemma RewoundIndex(s: Store, t: Store, top: Block, b: Block, index: map<Hash, nat>)
    requires WellFormed(s) && Stored(s, top) && OnPath(s, top, b) && BlockChains.Indexes(s, top, index)
    requires WellFormed(t) && Stored(t, b) && Rooted(t, b) && forall h | h in t :: h in s && s[h] == t[h]
    ensures BlockChains.Covers(t, b, index)
    ensures BlockChains.Indexes(t, b, index) <==> forall x, n: nat | n > b.number :: !BlockChains.TxAt(s, top, n, x)
  {
    forall x, n: nat
      ensures BlockChains.TxAt(t, b, n, x) <==> n <= b.number && BlockChains.TxAt(s, top, n, x)
    {
      SameTxs(s, t, top, b, n, x);
    }
  }

  // ---- Concrete rewinds ----

  const A := Block(2, 1, 1, 11, 1, [], [])
  const B := Block(3, 2, 2, 12, 2, [], [])
  const THREE: Store := map[1 := GENESIS, 2 := A, 3 := B]

  lemma ThreeBlocks()
    ensures Consistent(THREE, GENESIS, Heads(B, B, B)) && Bodied(THREE, THREE.Keys, Heads(B, B, B))
    ensures Index(Path(THREE, B)) == map[0 := 1, 1 := 2, 2 := 3]
  {
    assert Parent(THREE, B) == Some(A) && Parent(THREE, A) == Some(GENESIS);
    assert Path(THREE, A) == [1, 2];
    assert Path(THREE, B) == [1, 2, 3];
    assert forall h | h in THREE :: Linked(THREE, THREE[h]) && (THREE[h].number == 0 || Parent(THREE, THREE[h]).Some?);
  }

  /** Such a chain. */
  ghost predicate AllFrozen(c: Chain)
    reads c
  {
    && c.scheme == Scheme(GENESIS, false, None, {}) && c.headers == THREE && c.bodies == c.tds == THREE.Keys
    && c.canonical == map[0 := 1, 1 := 2, 2 := 3] && c.heads == c.disk == Heads(B, B, B) && c.states == {10} && c.frozen == 3
  }

  lemma FrozenIsReady(c: Chain)
    requires AllFrozen(c)
    ensures c.HeadsConsistent() && c.Indexed() && c.InStep()
  {
    ThreeBlocks();
    ExactIsSound(THREE, c.canonical, B, B);
  }

  /** A repair that lands below the ancient limit can strand the snap marker: with three blocks, all
      frozen, and state for genesis only, it deletes the block the marker names. In memory the snap
      head falls back to genesis. */
  method RepairStrandsSnapMarker(c: Chain)
    requires AllFrozen(c)
    modifies c
    ensures old(c.HeadsConsistent() && c.Indexed() && c.InStep())
    ensures c.disk.snap == B && c.Stranded() && c.HeadsConsistent()
  {
    FrozenIsReady(c);
    var ok, number;
    ghost var trail;
    ok, number, trail := c.SetHeadBeyondRoot(0, 0, ZERO_HASH, true, true);
    assert Stateful({10}, c.heads.block) && c.heads.block.hash in THREE && THREE[c.heads.block.hash] == c.heads.block;
  }

  /** A hash-scheme search ends at height zero or on a block with state. */
  lemma AnswerHasState(s: Store, c: Scheme, states: set<Hash>, start: Block, root: Hash, block: Block, rootNumber: nat)
    requires !c.pathScheme && Answered(s, c, states, start, root, block, rootNumber)
    ensures Stored(s, block) && (block.number > 0 ==> block.root in states)
  {
    var q := Search(s, c.genesis, start, root, states, states, false);
    assert Asks(s, c, states, start, root, q, SearchLimit(c.pivot, start));
  }

  lemma LandsWithState(s: Store, c: Scheme, from: Progress, root: Hash, header: Block, block: Block, rootNumber: nat)
    requires !c.pathScheme && Lands(s, c, from, root, header, block, rootNumber)
    ensures Stored(s, block) && (block.number > 0 ==> block.root in from.states)
  {
    var start, states :| Answered(s, c, states, start, root, block, rootNumber) && Recovered(c, from.states, states);
    AnswerHasState(s, c, states, start, root, block, rootNumber);
    assert Recovered(c, from.states, states);
  }

  /** A rewind that lands below the ancient limit goes on: asked to go back to the first of these blocks,
      it finds state for genesis only and removes both headers. */
  method GoesOnBelowLimit(c: Chain)
    requires AllFrozen(c)
    modifies c
    ensures c.heads.header.number == 0 && c.frozen == 1 && A.hash !in c.headers && B.hash !in c.headers
  {
    FrozenIsReady(c);
    ghost var from := c.Started(1, 0);
    var ok, number;
    ghost var trail;
    ok, number, trail := c.SetHeadBeyondRoot(1, 0, ZERO_HASH, false, true);
    LandsWithState(THREE, c.scheme, from, ZERO_HASH, c.heads.header, c.heads.block, number);
  }

  const SIDE := Block(9, 1, 1, 19, 1, [], [])

  lemma Beside(s: Store)
    requires s == map[1 := GENESIS, 9 := SIDE]
    ensures Consistent(s, GENESIS, Heads(GENESIS, GENESIS, GENESIS)) && Bodied(s, s.Keys, Heads(GENESIS, GENESIS, GENESIS))
    ensures Index(Path(s, GENESIS)) == map[0 := 1]
  {
    assert Path(s, GENESIS) == [1] && Parent(s, SIDE) == Some(GENESIS);
    assert forall h | h in s :: Linked(s, s[h]) && (s[h].number == 0 || Parent(s, s[h]).Some?);
  }

  /** A header above the target survives when the head is not above it: here a block beside a chain
      that is already at genesis. */
  method SideHeaderSurvives(c: Chain)
    requires c.scheme == Scheme(GENESIS, false, None, {}) && c.headers == map[1 := GENESIS, 9 := SIDE] && c.bodies == c.tds == c.headers.Keys
    requires c.canonical == map[0 := 1] && c.heads == c.disk == Heads(GENESIS, GENESIS, GENESIS) && c.states == {10} && c.frozen == 0
    modifies c
    ensures old(c.HeadsConsistent() && c.Indexed() && c.InStep())
    ensures SIDE.hash in c.headers && SIDE.number > 0
  {
    Beside(c.headers);
    var ok, number;
    ghost var trail;
    ok, number, trail := c.SetHeadBeyondRoot(0, 0, ZERO_HASH, false, true);
  }
}
