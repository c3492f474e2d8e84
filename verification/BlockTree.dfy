/** The tree of stored blocks that every chain component reads: blocks are found by hash
    and number, and each names its parent by hash. A store may be gapped (a parent may be
    missing), so ancestor walks are partial. */
module BlockTree {

  import opened Options

  type Hash = nat

  // The all-zero hash, which every lookup answers with when it finds nothing.
  const ZERO_HASH: Hash := 0

  datatype Block = Block(
    hash: Hash, parent: Hash, number: nat, root: Hash, time: nat, txs: seq<Hash>, logs: seq<nat>)

  type Store = map<Hash, Block>

  const GENESIS := Block(1, ZERO_HASH, 0, 10, 0, [], [])

  /** What consensus validation and collision-free hashing give: a hash identifies its block,
      no block hashes to zero, only a block at height zero names no parent, and a stored
      parent sits exactly one height below. */
  ghost predicate WellFormed(s: Store) {
    && (forall h | h in s :: s[h].hash == h && h != ZERO_HASH && (s[h].number > 0 ==> s[h].parent != ZERO_HASH))
    && (forall h {:trigger Linked(s, s[h])} | h in s :: Linked(s, s[h]))
  }

  /** If the parent is stored, it sits exactly one height below. */
  ghost predicate Linked(s: Store, b: Block) {
    b.parent in s ==> s[b.parent].number + 1 == b.number
  }

  predicate Stored(s: Store, b: Block) {
    b.hash in s && s[b.hash] == b
  }

  /** Lookup by hash and number; a number that wrapped below zero finds nothing. */
  function Get(s: Store, hash: Hash, number: int): (r: Option<Block>)
    ensures r.Some? ==> r.value.number == number && hash in s && s[hash] == r.value
  {
    if hash in s && s[hash].number == number then Some(s[hash]) else None
  }

  function Parent(s: Store, b: Block): (r: Option<Block>)
    ensures r.Some? ==> r.value.number == b.number - 1
  {
    Get(s, b.parent, b.number - 1)
  }

  /** Every ancestor of `b` down to height zero is stored. */
  ghost predicate Rooted(s: Store, b: Block)
    decreases b.number
  {
    b.number == 0 || (Parent(s, b).Some? && Rooted(s, Parent(s, b).value))
  }

  /** The hashes of `b` and its ancestors, indexed by height. */
  ghost function Path(s: Store, b: Block): (p: seq<Hash>)
    requires Rooted(s, b)
    ensures |p| == b.number + 1 && p[b.number] == b.hash
    decreases b.number
  {
    if b.number == 0 then [b.hash] else Path(s, Parent(s, b).value) + [b.hash]
  }

  /** The number->hash table whose slots are exactly the entries of `p`. */
  ghost function Index(p: seq<Hash>): map<nat, Hash> {
    map n | 0 <= n < |p| :: p[n]
  }

  /** Reading a canonical slot: zero when the slot is empty. */
  function Slot(canonical: map<nat, Hash>, n: nat): Hash {
    if n in canonical then canonical[n] else ZERO_HASH
  }

  /** The ancestor `k` generations above `b`, by walking parents one by one. */
  ghost function Ancestor(s: Store, b: Block, k: nat): (r: Option<Block>)
    ensures r.Some? ==> r.value.number + k == b.number
  {
    if k == 0 then Some(b) else
    match Ancestor(s, b, k - 1)
    case None => None
    case Some(a) => Parent(s, a)
  }

  /** Every height of a rooted block's path holds a stored block, whose own path is the
      corresponding prefix. */
  lemma {:induction false} PathPrefix(s: Store, b: Block, n: nat)
    requires WellFormed(s) && Rooted(s, b) && Stored(s, b) && n <= b.number
    ensures Path(s, b)[n] in s
    ensures var a := s[Path(s, b)[n]]; a.number == n && Stored(s, a) && Rooted(s, a) && Path(s, a) == Path(s, b)[..n + 1]
    decreases b.number
  {
    if n < b.number {
      PathPrefix(s, Parent(s, b).value, n);
    }
  }

  lemma PathNonZero(s: Store, b: Block)
    requires WellFormed(s) && Rooted(s, b) && Stored(s, b)
    ensures ZERO_HASH !in Path(s, b)
  {
    forall n: nat | n <= b.number
      ensures Path(s, b)[n] != ZERO_HASH
    {
      PathPrefix(s, b, n);
    }
  }

  /** Walking parents and indexing the path agree. */
  lemma {:induction false} AncestorOnPath(s: Store, b: Block, k: nat)
    requires WellFormed(s) && Rooted(s, b) && Stored(s, b) && k <= b.number
    ensures Ancestor(s, b, k).Some?
    ensures var a := Ancestor(s, b, k).value;
            Stored(s, a) && a.hash == Path(s, b)[b.number - k] && Rooted(s, a) && Path(s, a) == Path(s, b)[..b.number - k + 1]
  {
    if k > 0 {
      AncestorOnPath(s, b, k - 1);
    }
  }

  /** A block with a rooted ancestor is rooted, and its path extends the ancestor's. */
  lemma {:induction false} RootedBelow(s: Store, b: Block, k: nat)
    requires WellFormed(s) && Ancestor(s, b, k).Some? && Stored(s, b)
    requires Rooted(s, Ancestor(s, b, k).value)
    ensures Rooted(s, b) && Path(s, b)[..b.number - k + 1] == Path(s, Ancestor(s, b, k).value)
  {
    if k > 0 {
      RootedBelow(s, b, k - 1);
    }
  }

  /** A missing ancestor leaves every deeper one missing. */
  lemma {:induction false} AncestorsEnd(s: Store, b: Block, k: nat, m: nat)
    requires k <= m && Ancestor(s, b, k).None?
    ensures Ancestor(s, b, m).None?
  {
    if k < m {
      AncestorsEnd(s, b, k, m - 1);
    }
  }

  /** Adding blocks never changes an existing path. */
  lemma {:induction false} PathGrows(s: Store, t: Store, b: Block)
    requires Rooted(s, b) && forall h | h in s :: h in t && t[h] == s[h]
    ensures Rooted(t, b) && Path(t, b) == Path(s, b)
    decreases b.number
  {
    if b.number > 0 {
      PathGrows(s, t, Parent(s, b).value);
    }
  }

  /** A table without zero entries is determined by what its slots read. */
  lemma SlotsDetermine(m: map<nat, Hash>, p: seq<Hash>)
    requires ZERO_HASH !in m.Values
    requires forall n: nat :: Slot(m, n) == if n < |p| then p[n] else ZERO_HASH
    requires ZERO_HASH !in p
    ensures m == Index(p)
  {
    forall n: nat
      ensures n in m <==> n in Index(p)
    {
      assert Slot(m, n) == if n < |p| then p[n] else ZERO_HASH;
      assert n in m ==> m[n] in m.Values;
    }
    forall n: nat | n in m
      ensures m[n] == Index(p)[n]
    {
      assert Slot(m, n) == if n < |p| then p[n] else ZERO_HASH;
    }
  }

  lemma {:induction false} IndexSize(p: seq<Hash>)
    ensures |Index(p)| == |p|
  {
    if p == [] {
      assert Index(p) == map[];
    } else {
      var n := |p| - 1;
      IndexSize(p[..n]);
      assert Index(p) == Index(p[..n])[n := p[n]];
    }
  }

  /** The table holds the ancestors of `b`, up to and including `b`. */
  ghost predicate LeadsTo(s: Store, m: map<nat, Hash>, b: Block) {
    Rooted(s, b) && forall n: nat | n <= b.number :: Slot(m, n) == Path(s, b)[n]
  }

  lemma AncestorsInPlace(s: Store, top: Block, b: Block)
    requires WellFormed(s) && Stored(s, top) && Rooted(s, top) && Stored(s, b) && b.number <= top.number && Path(s, top)[b.number] == b.hash
    ensures Rooted(s, b) && forall n: nat | n <= b.number :: Path(s, b)[n] == Path(s, top)[n]
  {
    PathPrefix(s, top, b.number);
    assert Path(s, b) == Path(s, top)[..b.number + 1];
  }

  ghost predicate SlotFilled(m: map<nat, Hash>, n: nat) {
    if n < |m| then n in m && m[n] != ZERO_HASH else n !in m
  }

  /** A table without holes or zero entries. */
  ghost predicate Unbroken(m: map<nat, Hash>) {
    forall n: nat :: SlotFilled(m, n)
  }

  /** What every head move keeps: the table has no holes and, up to the full head, is its ancestor path.
      It may reach further, as after a rewind that leaves the head header above the full head. */
  ghost predicate Sound(s: Store, m: map<nat, Hash>, head: Block) {
    WellFormed(s) && Stored(s, head) && Unbroken(m) && LeadsTo(s, m, head)
  }

  lemma SlotsFilled(m: map<nat, Hash>)
    requires Unbroken(m)
    ensures ZERO_HASH !in m.Values
    ensures forall n: nat :: Slot(m, n) != ZERO_HASH <==> n < |m|
  {
    forall n: nat
      ensures n in m ==> m[n] != ZERO_HASH
      ensures Slot(m, n) != ZERO_HASH <==> n < |m|
    {
      assert SlotFilled(m, n);
    }
  }

  /** A table that is exactly a block's path is sound for every block on it. */
  lemma ExactIsSound(s: Store, m: map<nat, Hash>, top: Block, head: Block)
    requires WellFormed(s) && Stored(s, top) && Rooted(s, top) && m == Index(Path(s, top))
    requires Stored(s, head) && head.number <= top.number && Path(s, top)[head.number] == head.hash
    ensures Sound(s, m, head) && |m| == top.number + 1
  {
    var p := Path(s, top);
    IndexSize(p);
    PathNonZero(s, top);
    AncestorsInPlace(s, top, head);
    forall n: nat
      ensures SlotFilled(m, n)
    {
      assert n < |p| ==> p[n] in p;
    }
  }

  /** A sound table is exactly the head's path when it reaches no further. */
  lemma SoundIsExact(s: Store, m: map<nat, Hash>, head: Block)
    requires Sound(s, m, head)
    ensures head.number < |m|
    ensures m == Index(Path(s, head)) <==> |m| == head.number + 1
  {
    var p := Path(s, head);
    IndexSize(p);
    PathNonZero(s, head);
    SlotsFilled(m);
    assert Slot(m, head.number) == p[head.number] && p[head.number] in p;
    if |m| == head.number + 1 {
      SlotsDetermine(m, p);
    }
  }

  /** Deletes slots upwards from the one above `top` until it meets an empty one. When the
      table has no hole above `top`, that clears everything above it. */
  method DeleteRun(canonical: map<nat, Hash>, top: nat, ghost end: nat) returns (batch: map<nat, Hash>)
    requires ZERO_HASH !in canonical.Values
    requires forall n: nat | n > top :: Slot(canonical, n) != ZERO_HASH <==> n < end
    ensures ZERO_HASH !in batch.Values
    ensures forall n: nat :: Slot(batch, n) == if n <= top then Slot(canonical, n) else ZERO_HASH
  {
    batch := canonical;
    var i := top + 1;
    while Slot(canonical, i) != ZERO_HASH
      invariant i > top && (top < i - 1 ==> i - 1 < end)
      invariant batch == map n | n in canonical && !(top < n < i) :: canonical[n]
      decreases end - i
    {
      batch := batch - {i};
      i := i + 1;
    }
    forall n: nat | n > top
      ensures Slot(batch, n) == ZERO_HASH
    {
      assert n >= i ==> Slot(canonical, n) == ZERO_HASH;
    }
  }
}
