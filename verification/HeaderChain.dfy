/** The header chain: a store of headers, the number->hash table of the canonical chain and
    the current head header. */
module HeaderChains {
  import opened Options
  import opened BlockTree

  /** A batch of headers, each the parent of the next. */
  ghost predicate Contiguous(hs: seq<Block>) {
    forall i | 0 < i < |hs| :: hs[i].parent == hs[i - 1].hash && hs[i].number == hs[i - 1].number + 1
  }

  ghost predicate AllStored(s: Store, hs: seq<Block>) {
    forall i | 0 <= i < |hs| :: Stored(s, hs[i])
  }

  ghost function Hashes(hs: seq<Block>): seq<Hash> {
    seq(|hs|, i requires 0 <= i < |hs| => hs[i].hash)
  }

  /** Along a contiguous batch rootedness passes both ways, and a member's path is the first
      one's followed by the batch. */
  lemma {:induction false} BatchPath(s: Store, hs: seq<Block>, j: nat)
    requires WellFormed(s) && Contiguous(hs) && AllStored(s, hs) && j < |hs|
    ensures hs[j].number == hs[0].number + j
    ensures Rooted(s, hs[0]) <==> Rooted(s, hs[j])
    ensures Rooted(s, hs[0]) ==> Path(s, hs[j]) == Path(s, hs[0]) + Hashes(hs)[1..j + 1]
  {
    if j > 0 {
      BatchPath(s, hs, j - 1);
      assert Parent(s, hs[j]) == Some(hs[j - 1]);
    }
  }

  /** The header hash `k` steps above the given one, reading one header per step. */
  ghost function Walk(s: Store, hash: Hash, number: nat, k: nat): Option<Hash>
    requires k <= number
  {
    if k == 0 then Some(hash) else
    match Walk(s, hash, number, k - 1)
    case None => None
    case Some(h) =>
      var b := Get(s, h, number - (k - 1));
      if b.None? then None else Some(b.value.parent)
  }

  /** The store after a batch of headers has been written to it. */
  function Extend(s: Store, hs: seq<Block>): (t: Store)
    ensures forall h | h in s && (forall i | 0 <= i < |hs| && hs[i].hash == h :: hs[i] == s[h]) :: h in t && t[h] == s[h]
  {
    if hs == [] then s else Extend(s, hs[..|hs| - 1])[hs[|hs| - 1].hash := hs[|hs| - 1]]
  }

  /** Walking on from where a walk has come to. */
  lemma {:induction false} WalkMore(s: Store, hash: Hash, number: nat, j: nat, m: nat)
    requires j <= m <= number && Walk(s, hash, number, j).Some?
    ensures Walk(s, hash, number, m) == Walk(s, Walk(s, hash, number, j).value, number - j, m - j)
  {
    if j < m {
      WalkMore(s, hash, number, j, m - 1);
    }
  }

  lemma {:induction false} WalkNonZero(s: Store, hash: Hash, number: nat, k: nat)
    requires WellFormed(s) && k <= number && hash != ZERO_HASH && Walk(s, hash, number, k).Some?
    ensures Walk(s, hash, number, k).value != ZERO_HASH
  {
    if k > 0 {
      WalkNonZero(s, hash, number, k - 1);
    }
  }

  lemma {:induction false} WalkEnds(s: Store, hash: Hash, number: nat, k: nat, m: nat)
    requires k <= m <= number && Walk(s, hash, number, k).None?
    ensures Walk(s, hash, number, m).None?
  {
    if k < m {
      WalkEnds(s, hash, number, k, m - 1);
    }
  }

  /** The table agrees with a block's path at its height; at height zero it can be made to. */
  predicate Agrees(m: map<nat, Hash>, b: Block) {
    b.number == 0 || Slot(m, b.number) == b.hash
  }

  /** The `k`th ancestor is the first with which the table agrees. */
  ghost predicate CrossesAt(s: Store, m: map<nat, Hash>, first: Block, k: nat) {
    && Ancestor(s, first, k).Some? && Agrees(m, Ancestor(s, first, k).value)
    && forall j: nat | j < k :: Ancestor(s, first, j).Some? && !Agrees(m, Ancestor(s, first, j).value)
  }

  ghost predicate Crosses(s: Store, m: map<nat, Hash>, first: Block) {
    exists k: nat :: CrossesAt(s, m, first, k)
  }

  /** From the block where a table agrees on down, it holds that block's ancestors. */
  ghost predicate Meets(s: Store, m: map<nat, Hash>, cross: Block) {
    cross.number == 0 || LeadsTo(s, m, cross)
  }

  lemma NeverCrosses(s: Store, m: map<nat, Hash>, first: Block, k: nat)
    requires Ancestor(s, first, k + 1).None?
    requires forall j: nat | j <= k :: Ancestor(s, first, j).Some? && !Agrees(m, Ancestor(s, first, j).value)
    ensures !Crosses(s, m, first)
  {
    forall i: nat
      ensures !CrossesAt(s, m, first, i)
    {
      if i > k {
        AncestorsEnd(s, first, k + 1, i);
      }
    }
  }

  lemma {:induction false} AncestorStored(s: Store, b: Block, k: nat)
    requires WellFormed(s) && Stored(s, b) && Ancestor(s, b, k).Some?
    ensures Stored(s, Ancestor(s, b, k).value)
  {
    if k > 0 {
      AncestorStored(s, b, k - 1);
    }
  }

  /** A block with all its ancestors crosses any table somewhere, at height zero if nowhere else. */
  lemma RootedCrosses(s: Store, m: map<nat, Hash>, first: Block)
    requires WellFormed(s) && Stored(s, first) && Rooted(s, first)
    ensures Crosses(s, m, first)
  {
    var k: nat := 0;
    assert Ancestor(s, first, 0) == Some(first);
    while !Agrees(m, Ancestor(s, first, k).value)
      invariant k <= first.number && Ancestor(s, first, k).Some?
      invariant forall j: nat | j < k :: Ancestor(s, first, j).Some? && !Agrees(m, Ancestor(s, first, j).value)
      decreases first.number - k
    {
      AncestorOnPath(s, first, k + 1);
      k := k + 1;
    }
    assert CrossesAt(s, m, first, k);
  }

  /** Relinking from `first` has come down to `header`: above it the batch holds the path of `first`,
      at and below it the table is still untouched. */
  ghost predicate Relinking(s: Store, canonical: map<nat, Hash>, pending: map<nat, Hash>, batch: map<nat, Hash>, first: Block, header: Block) {
    && Stored(s, header) && header.number <= first.number && header.hash != ZERO_HASH && ZERO_HASH !in batch.Values
    && (Rooted(s, first) <==> Rooted(s, header))
    && (Rooted(s, first) ==>
          && Path(s, first)[..header.number + 1] == Path(s, header)
          && forall n: nat | header.number < n <= first.number :: Slot(batch, n) == Path(s, first)[n])
    && (forall n: nat | n <= header.number :: Slot(batch, n) == Slot(canonical, n))
    && (forall n: nat | n > first.number :: Slot(batch, n) == Slot(pending, n))
    && (header.number < first.number ==> Slot(batch, first.number) == first.hash)
    && (header.number == first.number ==> header == first)
  }

  lemma RelinkDown(s: Store, canonical: map<nat, Hash>, pending: map<nat, Hash>, batch: map<nat, Hash>, first: Block, header: Block)
    requires WellFormed(s) && Relinking(s, canonical, pending, batch, first, header) && header.number > 0 && Parent(s, header).Some?
    ensures Relinking(s, canonical, pending, batch[header.number := header.hash], first, Parent(s, header).value)
  {
    var parent, more := Parent(s, header).value, batch[header.number := header.hash];
    assert forall n: nat | n != header.number :: Slot(more, n) == Slot(batch, n);
    assert Slot(more, header.number) == header.hash;
    if Rooted(s, first) {
      assert Path(s, header) == Path(s, parent) + [header.hash];
      assert Path(s, first)[..header.number] == Path(s, first)[..header.number + 1][..header.number];
      assert Path(s, first)[header.number] == Path(s, first)[..header.number + 1][header.number];
    }
  }

  /** Relinking down to height zero rewrites the whole path. */
  lemma RelinkBottom(s: Store, canonical: map<nat, Hash>, pending: map<nat, Hash>, batch: map<nat, Hash>, first: Block, header: Block)
    requires WellFormed(s) && Relinking(s, canonical, pending, batch, first, header) && header.number == 0
    ensures LeadsTo(s, batch[0 := header.hash], first) && ZERO_HASH !in batch[0 := header.hash].Values
    ensures forall n: nat | n > first.number :: Slot(batch[0 := header.hash], n) == Slot(pending, n)
  {
    var more := batch[0 := header.hash];
    assert forall n: nat :: Slot(more, n) == if n == 0 then header.hash else Slot(batch, n);
    assert Path(s, first)[..1][0] == Path(s, header)[0];
    assert forall h | h in more.Values :: h == header.hash || h in batch.Values;
  }

  /** Where relinking stops: the slots up to `first` are its path exactly when the table holds the
      ancestors of the block it met. */
  lemma RelinkStops(s: Store, canonical: map<nat, Hash>, pending: map<nat, Hash>, batch: map<nat, Hash>, first: Block, cross: Block)
    requires WellFormed(s) && Relinking(s, canonical, pending, batch, first, cross) && Slot(canonical, cross.number) == cross.hash
    ensures LeadsTo(s, batch, first) <==> Meets(s, canonical, cross)
  {
    if Rooted(s, first) {
      assert forall n: nat | n <= cross.number :: Path(s, first)[..cross.number + 1][n] == Path(s, cross)[n];
      if LeadsTo(s, batch, first) {
        forall n: nat | n <= cross.number
          ensures Slot(canonical, n) == Path(s, cross)[n]
        {
          assert Slot(batch, n) == Path(s, first)[n];
        }
      }
      if Meets(s, canonical, cross) {
        forall n: nat | n <= first.number
          ensures Slot(batch, n) == Path(s, first)[n]
        {
          if n <= cross.number && cross.number > 0 {
            assert Slot(canonical, n) == Path(s, cross)[n];
          }
        }
      }
    }
  }

  /** The slots of a batch written over `pending`. */
  ghost predicate Extends(pending: map<nat, Hash>, m: map<nat, Hash>, hs: seq<Block>)
    requires hs != []
  {
    && ZERO_HASH !in m.Values
    && forall n: nat :: Slot(m, n) == if 0 <= n - hs[0].number < |hs| then hs[n - hs[0].number].hash else Slot(pending, n)
  }

  /** A table that is right below the batch and empty above it. */
  ghost predicate Clears(s: Store, pending: map<nat, Hash>, first: Block, last: nat) {
    && Rooted(s, first) && (forall n: nat | n < first.number :: Slot(pending, n) == Path(s, first)[n])
    && forall n: nat | n > last :: Slot(pending, n) == ZERO_HASH
  }

  lemma BatchSlot(s: Store, hs: seq<Block>, n: nat)
    requires WellFormed(s) && hs != [] && Contiguous(hs) && AllStored(s, hs) && Rooted(s, hs[0]) && n <= hs[|hs| - 1].number
    requires hs[|hs| - 1].number == hs[0].number + |hs| - 1 && Rooted(s, hs[|hs| - 1])
    ensures Path(s, hs[|hs| - 1])[n] == if n < hs[0].number then Path(s, hs[0])[n] else hs[n - hs[0].number].hash
  {
    BatchPath(s, hs, |hs| - 1);
    assert Path(s, hs[|hs| - 1]) == Path(s, hs[0]) + Hashes(hs)[1..];
  }

  lemma PathClears(s: Store, pending: map<nat, Hash>, m: map<nat, Hash>, hs: seq<Block>)
    requires WellFormed(s) && hs != [] && Contiguous(hs) && AllStored(s, hs) && Extends(pending, m, hs)
    requires Rooted(s, hs[0]) && Rooted(s, hs[|hs| - 1]) && m == Index(Path(s, hs[|hs| - 1]))
    requires hs[|hs| - 1].number == hs[0].number + |hs| - 1
    ensures Clears(s, pending, hs[0], hs[|hs| - 1].number)
  {
    var first, last := hs[0], hs[|hs| - 1];
    forall n: nat
      ensures n < first.number ==> Slot(pending, n) == Path(s, first)[n]
      ensures n > last.number ==> Slot(pending, n) == ZERO_HASH
    {
      if n < first.number {
        BatchSlot(s, hs, n);
      }
      assert Slot(m, n) == if n <= last.number then Path(s, last)[n] else ZERO_HASH;
    }
  }

  lemma ClearIsPath(s: Store, pending: map<nat, Hash>, m: map<nat, Hash>, hs: seq<Block>)
    requires WellFormed(s) && hs != [] && Contiguous(hs) && AllStored(s, hs) && Extends(pending, m, hs)
    requires Rooted(s, hs[|hs| - 1]) && hs[|hs| - 1].number == hs[0].number + |hs| - 1
    requires Clears(s, pending, hs[0], hs[|hs| - 1].number)
    ensures m == Index(Path(s, hs[|hs| - 1]))
  {
    var last := hs[|hs| - 1];
    forall n: nat
      ensures Slot(m, n) == if n < |Path(s, last)| then Path(s, last)[n] else ZERO_HASH
    {
      if n <= last.number {
        BatchSlot(s, hs, n);
      }
    }
    PathNonZero(s, last);
    SlotsDetermine(m, Path(s, last));
  }

  /** What a batch leaves is exactly its last header's path when the slots below it were right and
      those above it empty. */
  lemma ExtensionIsPath(s: Store, pending: map<nat, Hash>, m: map<nat, Hash>, hs: seq<Block>)
    requires WellFormed(s) && hs != [] && Contiguous(hs) && AllStored(s, hs) && Extends(pending, m, hs)
    ensures var last := hs[|hs| - 1];
            Rooted(s, last) && m == Index(Path(s, last)) <==> Clears(s, pending, hs[0], last.number)
  {
    BatchPath(s, hs, |hs| - 1);
    if Rooted(s, hs[0]) {
      if m == Index(Path(s, hs[|hs| - 1])) {
        PathClears(s, pending, m, hs);
      }
      if Clears(s, pending, hs[0], hs[|hs| - 1].number) {
        ClearIsPath(s, pending, m, hs);
      }
    }
  }

  lemma LeadsClears(s: Store, m: map<nat, Hash>, batch: map<nat, Hash>, first: Block, last: nat, cross: Block)
    requires first.number <= last && (forall n: nat | n > last :: Slot(batch, n) == ZERO_HASH)
    requires LeadsTo(s, batch, first) <==> Meets(s, m, cross)
    requires Slot(batch, first.number) == first.hash
    ensures Clears(s, batch, first, last) <==> Meets(s, m, cross)
  {
    if Clears(s, batch, first, last) {
      assert Path(s, first)[first.number] == first.hash;
    }
  }

  class HeaderChain {
    var headers: Store
    var canonical: map<nat, Hash>
    var head: Block

    /** The canonical table is exactly the ancestor path of the head header. */
    ghost predicate Valid()
      reads this
    {
      && WellFormed(headers)
      && Stored(headers, head)
      && Rooted(headers, head)
      && canonical == Index(Path(headers, head))
    }

    /** The table is sound, but may reach above the head header, as block writes can leave it. */
    ghost predicate Sane()
      reads this
    {
      Sound(headers, canonical, head)
    }

    lemma ValidIsSane()
      requires Valid()
      ensures Sane() && |canonical| == head.number + 1
    {
      ExactIsSound(headers, canonical, head, head);
    }

    /** Empty slots of a valid table are exactly those above the head; a full one holds the
        ancestor at that height. */
    lemma SlotsOfPath(n: nat)
      requires Valid()
      ensures Slot(canonical, n) == if n <= head.number then Path(headers, head)[n] else ZERO_HASH
      ensures n <= head.number ==>
                && Slot(canonical, n) in headers
                && var b := headers[Slot(canonical, n)];
                  b.number == n && Rooted(headers, b) && Path(headers, b) == Path(headers, head)[..n + 1]
    {
      if n <= head.number {
        PathPrefix(headers, head, n);
      }
    }

    /** In a valid table agreement with a block means holding all its ancestors. */
    lemma AgreeingMeets(b: Block)
      requires Valid() && Stored(headers, b) && Agrees(canonical, b)
      ensures Rooted(headers, b) && Meets(headers, canonical, b)
    {
      SlotsOfPath(b.number);
      if b.number > 0 {
        forall n: nat | n <= b.number
          ensures Slot(canonical, n) == Path(headers, b)[n]
        {
          SlotsOfPath(n);
        }
      }
    }

    /** So a valid table is crossed exactly by blocks with all their ancestors. */
    lemma CrossesIfRooted(first: Block)
      requires Valid() && Stored(headers, first)
      ensures Crosses(headers, canonical, first) <==> Rooted(headers, first)
    {
      if i: nat :| CrossesAt(headers, canonical, first, i) {
        AncestorStored(headers, first, i);
        AgreeingMeets(Ancestor(headers, first, i).value);
        RootedBelow(headers, first, i);
      }
      if Rooted(headers, first) {
        RootedCrosses(headers, canonical, first);
      }
    }

    /** Collects, into a copy of the table, the deletion of every slot above `top`. */
    method DeleteAbove(top: nat) returns (batch: map<nat, Hash>)
      requires Unbroken(canonical)
      ensures ZERO_HASH !in batch.Values
      ensures forall n: nat :: Slot(batch, n) == if n <= top then Slot(canonical, n) else ZERO_HASH
    {
      SlotsFilled(canonical);
      batch := DeleteRun(canonical, top, |canonical|);
    }

    /** Overwrites stale slots going backwards from `first` until the table already agrees. It fails
        exactly when an ancestor is missing before the table agrees with one; otherwise the slots up
        to `first` are its path exactly when the table held the ancestors of the block it met. */
    method RelinkBackwards(first: Block, pending: map<nat, Hash>) returns (ok: bool, batch: map<nat, Hash>, ghost k: nat)
      requires WellFormed(headers) && Stored(headers, first) && ZERO_HASH !in pending.Values
      requires forall n: nat | n <= first.number :: Slot(pending, n) == Slot(canonical, n)
      ensures ZERO_HASH !in batch.Values
      ensures ok <==> Crosses(headers, canonical, first)
      ensures ok ==> CrossesAt(headers, canonical, first, k) && Stored(headers, Ancestor(headers, first, k).value)
      ensures ok ==> (LeadsTo(headers, batch, first) <==> Meets(headers, canonical, Ancestor(headers, first, k).value))
      ensures ok ==> Slot(batch, first.number) == first.hash
      ensures forall n: nat | n > first.number :: Slot(batch, n) == Slot(pending, n)
    {
      var header, headNumber, headHash := first, first.number, first.hash;
      batch, k := pending, 0;
      while Slot(canonical, headNumber) != headHash
        invariant header.number == headNumber && header.hash == headHash && Ancestor(headers, first, k) == Some(header)
        invariant forall j: nat | j < k :: Ancestor(headers, first, j).Some? && !Agrees(canonical, Ancestor(headers, first, j).value)
        invariant Relinking(headers, canonical, pending, batch, first, header)
        decreases headNumber
      {
        if headNumber == 0 {
          assert CrossesAt(headers, canonical, first, k);
          RelinkBottom(headers, canonical, pending, batch, first, header);
          return true, batch[headNumber := headHash], k;
        }
        if Parent(headers, header).Some? {
          RelinkDown(headers, canonical, pending, batch, first, header);
        }
        batch := batch[headNumber := headHash];
        headHash, headNumber := header.parent, headNumber - 1;
        var parent := Get(headers, headHash, headNumber);
        if parent.None? {
          NeverCrosses(headers, canonical, first, k);
          return false, batch, k;
        }
        header, k := parent.value, k + 1;
      }
      assert CrossesAt(headers, canonical, first, k);
      RelinkStops(headers, canonical, pending, batch, first, header);
      ok := true;
    }

    /** Makes the given contiguous batch canonical; relinking meets the table at the `k`th ancestor of
        its first header. The table becomes exactly the last header's path if and only if, for a batch
        that extends the head, it did not reach above the batch, and for any other, it held the
        ancestors of the block it met. From a valid table that is always so, and the batch fails
        exactly when an ancestor is missing. A failure changes nothing. */
    method Reorg(hs: seq<Block>) returns (ok: bool, ghost k: nat)
      requires Sane() && Contiguous(hs) && AllStored(headers, hs)
      modifies `canonical, `head
      ensures head == if ok && hs != [] then hs[|hs| - 1] else old(head)
      ensures !ok || hs == [] ==> canonical == old(canonical)
      ensures hs == [] || hs[0].parent == old(head).hash ==> ok
      ensures hs != [] && hs[0].parent == old(head).hash ==> (Valid() <==> |old(canonical)| <= hs[|hs| - 1].number + 1)
      ensures hs != [] && hs[0].parent != old(head).hash ==>
                (ok <==> Crosses(headers, old(canonical), hs[0]))
      ensures hs != [] && hs[0].parent != old(head).hash && ok ==>
                && CrossesAt(headers, old(canonical), hs[0], k)
                && (Valid() <==> Meets(headers, old(canonical), Ancestor(headers, hs[0], k).value))
      ensures old(Valid()) ==> Valid() && (ok <==> hs == [] || Rooted(headers, hs[|hs| - 1]))
      ensures ok && hs != [] ==> Slot(canonical, hs[|hs| - 1].number) == hs[|hs| - 1].hash
    {
      k := 0;
      if hs == [] {
        return true, k;
      }
      BatchPath(headers, hs, |hs| - 1);
      var batch;
      ok, batch, k := Relink(hs);
      if ok {
        ghost var pending := batch;
        batch := ExtendCanonical(batch, hs);
        ExtensionIsPath(headers, pending, batch, hs);
        canonical := batch;
        head := hs[|hs| - 1];
      }
    }

    /** The table before the batch's own slots are written: as it is for a batch that extends the head,
        otherwise cut above the batch and relinked below it. */
    method Relink(hs: seq<Block>) returns (ok: bool, batch: map<nat, Hash>, ghost k: nat)
      requires Sane() && hs != [] && Contiguous(hs) && AllStored(headers, hs)
      ensures ZERO_HASH !in batch.Values
      ensures hs[0].parent == head.hash ==>
                ok && (Clears(headers, batch, hs[0], hs[|hs| - 1].number) <==> |canonical| <= hs[|hs| - 1].number + 1)
      ensures hs[0].parent != head.hash ==> (ok <==> Crosses(headers, canonical, hs[0]))
      ensures hs[0].parent != head.hash && ok ==>
                && CrossesAt(headers, canonical, hs[0], k)
                && (Clears(headers, batch, hs[0], hs[|hs| - 1].number) <==> Meets(headers, canonical, Ancestor(headers, hs[0], k).value))
      ensures Valid() ==> (ok <==> Rooted(headers, hs[0])) && (ok ==> Clears(headers, batch, hs[0], hs[|hs| - 1].number))
    {
      var first, last := hs[0], hs[|hs| - 1];
      BatchPath(headers, hs, |hs| - 1);
      ok, batch, k := true, canonical, 0;
      if first.parent != head.hash {
        batch := DeleteAbove(last.number);
        ok, batch, k := RelinkBackwards(first, batch);
        if ok {
          LeadsClears(headers, canonical, batch, first, last.number, Ancestor(headers, first, k).value);
        }
        if Valid() {
          CrossesIfRooted(first);
          if ok {
            AgreeingMeets(Ancestor(headers, first, k).value);
          }
        }
      } else {
        assert Linked(headers, headers[first.hash]);
        assert Parent(headers, first) == Some(head);
        PileOnHead(first, last.number);
        if Valid() {
          ValidIsSane();
        }
      }
    }

    /** Writes the batch's own slots over the pending table. */
    method ExtendCanonical(pending: map<nat, Hash>, hs: seq<Block>) returns (batch: map<nat, Hash>)
      requires WellFormed(headers) && Contiguous(hs) && AllStored(headers, hs) && hs != [] && ZERO_HASH !in pending.Values
      ensures Extends(pending, batch, hs)
    {
      batch := pending;
      for i := 0 to |hs| - 1
        invariant ZERO_HASH !in batch.Values
        invariant forall n: nat ::
                    Slot(batch, n) == if 0 <= n - hs[0].number < i then hs[n - hs[0].number].hash else Slot(pending, n)
      {
        BatchPath(headers, hs, i);
        ghost var before := batch;
        batch := batch[hs[i].number := hs[i + 1].parent];
        assert forall n: nat :: Slot(batch, n) == if n == hs[0].number + i then hs[i].hash else Slot(before, n);
      }
      BatchPath(headers, hs, |hs| - 1);
      ghost var before := batch;
      batch := batch[hs[|hs| - 1].number := hs[|hs| - 1].hash];
      assert forall n: nat :: Slot(batch, n) == if n == hs[0].number + |hs| - 1 then hs[|hs| - 1].hash else Slot(before, n);
    }

    /** A child of the head finds the table already holding its parent's path, and nothing above the
        batch exactly when the table does not reach there. */
    lemma PileOnHead(first: Block, last: nat)
      requires Sane() && Parent(headers, first) == Some(head) && first.number <= last
      ensures ZERO_HASH !in canonical.Values
      ensures Clears(headers, canonical, first, last) <==> |canonical| <= last + 1
    {
      SlotsFilled(canonical);
      assert Path(headers, first) == Path(headers, head) + [first.hash];
      assert Slot(canonical, last + 1) != ZERO_HASH <==> last + 1 < |canonical|;
    }

    /** The block in slot `hi` does not descend from the one in slot `lo`. */
    ghost predicate Apart(hi: nat, lo: nat)
      requires lo <= hi
      reads this
    {
      Walk(headers, Slot(canonical, hi), hi, hi - lo) != Some(Slot(canonical, lo))
    }

    /** Up to the head header the table is one chain. */
    lemma {:induction false} TogetherBelow(hi: nat, lo: nat)
      requires Sane() && lo <= hi <= head.number
      ensures !Apart(hi, lo)
      decreases hi - lo
    {
      if lo < hi {
        TogetherBelow(hi, lo + 1);
        PathPrefix(headers, head, lo + 1);
        var b := headers[Path(headers, head)[lo + 1]];
        assert Slot(canonical, lo + 1) == b.hash && Slot(canonical, lo) == Path(headers, head)[lo];
        assert Path(headers, b)[lo] == b.parent && Path(headers, b)[lo] == Path(headers, head)[..lo + 2][lo];
      }
    }

    /** An empty slot reads as zero, so the zero hash looks canonical above the table. */
    ghost predicate PhantomSlot(hash: Hash, number: nat, ancestor: nat)
      requires ancestor <= number
      reads this
    {
      hash == ZERO_HASH && ancestor >= 2 && number - ancestor < |canonical| <= number
    }

    /** The walk is at the slot of its height after `j` steps, within the budget and not before. */
    ghost predicate MeetsAt(hash: Hash, number: nat, ancestor: nat, budget: nat, j: nat)
      requires ancestor <= number
      reads this
    {
      && j < ancestor && j <= budget && Walk(headers, hash, number, j) == Some(Slot(canonical, number - j))
      && forall i: nat | i < j :: Walk(headers, hash, number, i) != Some(Slot(canonical, number - i))
    }

    ghost predicate MeetsTable(hash: Hash, number: nat, ancestor: nat, budget: nat)
      requires ancestor <= number
      reads this
    {
      exists j: nat :: MeetsAt(hash, number, ancestor, budget, j)
    }

    /** The walk meets the table at a slot that is not on one chain with that of the ancestor. */
    ghost predicate Misled(hash: Hash, number: nat, ancestor: nat, budget: nat)
      requires ancestor <= number
      reads this
    {
      hash != ZERO_HASH && ancestor >= 2 && exists j: nat :: MeetsAt(hash, number, ancestor, budget, j) && Apart(number - j, number - ancestor)
    }

    /** What an answer to an ancestor query means. A non-empty one is the plain parent-by-parent walk
        exactly when the query is neither phantom nor misled; and from a hash that is not zero it is
        non-empty exactly when the walk fits the budget or meets the table within it. */
    ghost predicate Answers(hash: Hash, number: nat, ancestor: nat, budget: nat, r: Hash, n: nat)
      requires ancestor <= number
      reads this
    {
      && (r != ZERO_HASH ==> n == number - ancestor)
      && ((r != ZERO_HASH ==> Walk(headers, hash, number, ancestor) == Some(r))
          <==> !PhantomSlot(hash, number, ancestor) && !Misled(hash, number, ancestor, budget))
      && (hash != ZERO_HASH ==>
            (r != ZERO_HASH <==>
             || (Walk(headers, hash, number, ancestor).Some? && (ancestor <= 1 || ancestor <= budget))
             || (ancestor >= 2 && MeetsTable(hash, number, ancestor, budget))))
    }

    /** A table that is the head header's path misleads no query, and whatever it answers there is the
        walk. */
    lemma ValidNeverMisleads(hash: Hash, number: nat, ancestor: nat, budget: nat)
      requires Valid() && ancestor <= number
      ensures !Misled(hash, number, ancestor, budget)
      ensures hash != ZERO_HASH && MeetsTable(hash, number, ancestor, budget) ==> Walk(headers, hash, number, ancestor).Some?
      ensures PhantomSlot(hash, number, ancestor) <==> hash == ZERO_HASH && ancestor >= 2 && number - ancestor <= head.number < number
    {
      ValidIsSane();
      forall j: nat | hash != ZERO_HASH && MeetsAt(hash, number, ancestor, budget, j)
        ensures !Apart(number - j, number - ancestor) && Walk(headers, hash, number, ancestor).Some?
      {
        WalkNonZero(headers, hash, number, j);
        SlotsFilled(canonical);
        TogetherBelow(number - j, number - ancestor);
        WalkMore(headers, hash, number, j, ancestor);
      }
    }

    /** Where the walk stops after `j` steps: at the ancestor, at a missing header, at the table, or with nothing
        left to spend. */
    ghost predicate Stops(hash: Hash, number: nat, ancestor: nat, budget: nat, j: nat)
      requires j <= ancestor <= number
      reads this
    {
      || j == ancestor || j == budget || Walk(headers, hash, number, j).None?
      || Walk(headers, hash, number, j) == Some(Slot(canonical, number - j))
    }

    /** Nothing stops the walk before `j` steps. */
    ghost predicate GoesOn(hash: Hash, number: nat, ancestor: nat, budget: nat, j: nat)
      requires j <= ancestor <= number
      reads this
    {
      forall i: nat | i < j :: !Stops(hash, number, ancestor, budget, i)
    }

    lemma AnswerFromTable(hash: Hash, number: nat, ancestor: nat, budget: nat, j: nat)
      requires Sane() && j < ancestor <= number && ancestor != 1 && j <= budget && GoesOn(hash, number, ancestor, budget, j)
      requires Walk(headers, hash, number, j) == Some(Slot(canonical, number - j)) && (j > 0 ==> hash != ZERO_HASH)
      ensures Answers(hash, number, ancestor, budget, Slot(canonical, number - ancestor), number - ancestor)
    {
      forall i: nat | i < j
        ensures Walk(headers, hash, number, i) != Some(Slot(canonical, number - i))
      {
        assert !Stops(hash, number, ancestor, budget, i);
      }
      assert MeetsAt(hash, number, ancestor, budget, j);
      SlotsFilled(canonical);
      if hash == ZERO_HASH {
        assert Walk(headers, hash, number, 1).None?;
        WalkEnds(headers, hash, number, 1, ancestor);
      } else {
        WalkNonZero(headers, hash, number, j);
        WalkMore(headers, hash, number, j, ancestor);
      }
    }

    lemma EmptyAnswer(hash: Hash, number: nat, ancestor: nat, budget: nat, j: nat)
      requires Sane() && j < ancestor <= number && ancestor != 1 && j <= budget
      requires GoesOn(hash, number, ancestor, budget, j) && Walk(headers, hash, number, j) != Some(Slot(canonical, number - j))
      requires j == budget || Walk(headers, hash, number, j + 1).None?
      ensures Answers(hash, number, ancestor, budget, ZERO_HASH, 0)
    {
      SlotsFilled(canonical);
      forall i: nat | i < j
        ensures Walk(headers, hash, number, i) != Some(Slot(canonical, number - i))
      {
        assert !Stops(hash, number, ancestor, budget, i);
      }
      assert Walk(headers, hash, number, 0) != Some(Slot(canonical, number));
      if j != budget {
        WalkEnds(headers, hash, number, j + 1, ancestor);
      }
      forall i: nat
        ensures !MeetsAt(hash, number, ancestor, budget, i)
      {
        if j < i < ancestor && j != budget {
          WalkEnds(headers, hash, number, j + 1, i);
        }
      }
    }

    lemma PlainAnswer(hash: Hash, number: nat, ancestor: nat, budget: nat, r: Hash)
      requires Sane() && ancestor <= number && ancestor != 1 && ancestor <= budget && Walk(headers, hash, number, ancestor) == Some(r)
      requires GoesOn(hash, number, ancestor, budget, ancestor)
      requires hash != ZERO_HASH ==> r != ZERO_HASH
      ensures Answers(hash, number, ancestor, budget, r, number - ancestor)
    {
      SlotsFilled(canonical);
      forall i: nat | i < ancestor
        ensures Walk(headers, hash, number, i) != Some(Slot(canonical, number - i))
      {
        assert !Stops(hash, number, ancestor, budget, i);
      }
      if ancestor > 0 {
        assert Walk(headers, hash, number, 0) != Some(Slot(canonical, number));
      }
    }

    /** The nth ancestor of a header, with a shortcut through the canonical table. Every step to a parent is
        taken off the budget. */
    method GetAncestor(hash: Hash, number: nat, ancestor: nat, maxNonCanonical: nat)
      returns (r: Hash, n: nat, budget: nat)
      requires Sane()
      ensures ancestor > number ==> r == ZERO_HASH
      ensures ancestor <= number ==> Answers(hash, number, ancestor, maxNonCanonical, r, n)
      ensures budget <= maxNonCanonical && (ancestor > number || ancestor == 1 ==> budget == maxNonCanonical)
      ensures ancestor <= number && ancestor != 1 ==>
                var spent := maxNonCanonical - budget;
                && spent <= ancestor && Stops(hash, number, ancestor, maxNonCanonical, spent)
                && GoesOn(hash, number, ancestor, maxNonCanonical, spent)
    {
      n, budget := number, maxNonCanonical;
      if ancestor > number {
        return ZERO_HASH, 0, budget;
      }
      if ancestor == 1 {
        var header := Get(headers, hash, number);
        assert Walk(headers, hash, number, 0) == Some(hash);
        if header.Some? {
          return header.value.parent, number - 1, budget;
        }
        return ZERO_HASH, 0, budget;
      }
      r, n, budget := WalkBack(hash, number, ancestor, maxNonCanonical);
    }

    /** Parent by parent, until the table tells the rest. */
    method WalkBack(hash: Hash, number: nat, ancestor: nat, maxNonCanonical: nat)
      returns (r: Hash, n: nat, budget: nat)
      requires Sane() && ancestor <= number && ancestor != 1
      ensures Answers(hash, number, ancestor, maxNonCanonical, r, n) && budget <= maxNonCanonical
      ensures var spent := maxNonCanonical - budget;
              && spent <= ancestor && Stops(hash, number, ancestor, maxNonCanonical, spent)
              && GoesOn(hash, number, ancestor, maxNonCanonical, spent)
    {
      n, budget := number, maxNonCanonical;
      var h, left := hash, ancestor;
      while left != 0
        invariant 0 <= left <= ancestor && n == number - (ancestor - left)
        invariant budget == maxNonCanonical - (ancestor - left)
        invariant Walk(headers, hash, number, ancestor - left) == Some(h)
        invariant left < ancestor ==> hash != ZERO_HASH
        invariant hash != ZERO_HASH ==> h != ZERO_HASH
        invariant GoesOn(hash, number, ancestor, maxNonCanonical, ancestor - left)
      {
        if Slot(canonical, n) == h {
          AnswerFromTable(hash, number, ancestor, maxNonCanonical, ancestor - left);
          return Slot(canonical, n - left), n - left, budget;
        }
        if budget == 0 {
          EmptyAnswer(hash, number, ancestor, maxNonCanonical, ancestor - left);
          return ZERO_HASH, 0, budget;
        }
        budget := budget - 1;
        left := left - 1;
        var header := Get(headers, h, n);
        if header.None? {
          EmptyAnswer(hash, number, ancestor, maxNonCanonical, ancestor - left - 1);
          return ZERO_HASH, 0, budget;
        }
        h := header.value.parent;
        n := n - 1;
      }
      PlainAnswer(hash, number, ancestor, maxNonCanonical, h);
      r := h;
    }

    /** Storing headers leaves the table what it was. */
    method WriteHeaders(hs: seq<Block>)
      requires Sane() && WellFormed(Extend(headers, hs))
      requires forall i | 0 <= i < |hs| && hs[i].hash in headers :: headers[hs[i].hash] == hs[i]
      modifies `headers
      ensures headers == Extend(old(headers), hs) && Sane() && (old(Valid()) <==> Valid())
    {
      PathGrows(headers, Extend(headers, hs), head);
      headers := Extend(headers, hs);
    }

    /** Stores a validated batch and makes its last header canonical unless it already is. */
    method InsertHeaders(hs: seq<Block>) returns (ok: bool)
      requires Sane() && hs != [] && Contiguous(hs)
      requires forall i | 0 <= i < |hs| && hs[i].hash in headers :: headers[hs[i].hash] == hs[i]
      requires WellFormed(Extend(headers, hs)) && AllStored(Extend(headers, hs), hs)
      modifies this
      ensures headers == if Parent(old(headers), hs[0]).Some? then Extend(old(headers), hs) else old(headers)
      ensures ok ==> Slot(canonical, hs[|hs| - 1].number) == hs[|hs| - 1].hash
      ensures !ok ==> canonical == old(canonical) && head == old(head)
      ensures old(Valid()) ==> Valid() && (ok <==> Parent(old(headers), hs[0]).Some? && Rooted(Extend(old(headers), hs), hs[0]))
      ensures old(Valid()) && ok ==> head == if Slot(old(canonical), hs[|hs| - 1].number) == hs[|hs| - 1].hash then old(head) else hs[|hs| - 1]
    {
      if Parent(headers, hs[0]).None? {
        return false;
      }
      var last := hs[|hs| - 1];
      WriteHeaders(hs);
      BatchPath(headers, hs, |hs| - 1);
      if Valid() {
        SlotsOfPath(last.number);
      }
      if Slot(canonical, last.number) == last.hash && last.number <= head.number {
        return true;
      }
      ghost var k;
      ok, k := Reorg(hs);
    }
  }

  /** On a chain that is only genesis, the second ancestor of the zero hash at height two comes out
      as genesis, although no walk leads there. */
  method PhantomAncestor(c: HeaderChain) returns (r: Hash)
    requires c.headers == map[1 := GENESIS] && c.canonical == map[0 := 1] && c.head == GENESIS
    ensures r != ZERO_HASH && Walk(c.headers, ZERO_HASH, 2, 2).None?
  {
    assert Path(c.headers, GENESIS) == [1];
    assert c.Valid();
    c.ValidIsSane();
    assert Walk(c.headers, ZERO_HASH, 2, 0) == Some(ZERO_HASH) && Walk(c.headers, ZERO_HASH, 2, 1).None?;
    var n, budget;
    r, n, budget := c.GetAncestor(ZERO_HASH, 2, 2, 100);
    assert c.PhantomSlot(ZERO_HASH, 2, 2);
  }

  const ORPHAN := Block(3, 2, 2, 12, 2, [], [])
  const CHILD := Block(4, 3, 3, 13, 3, [], [])

  lemma OrphanedBatch(s: Store)
    requires s == map[1 := GENESIS, 3 := ORPHAN]
    ensures WellFormed(s) && Path(s, GENESIS) == [1] && Extend(s, [CHILD]) == s[4 := CHILD]
    ensures WellFormed(s[4 := CHILD]) && Parent(s, CHILD) == Some(ORPHAN) && !Rooted(s[4 := CHILD], CHILD)
  {
    var t := s[4 := CHILD];
    assert [CHILD][..0] == [] && Extend(s, []) == s;
    assert forall h | h in t :: Linked(t, t[h]);
    assert forall h | h in s :: Linked(s, s[h]);
    assert Parent(t, CHILD) == Some(ORPHAN) && Parent(t, ORPHAN).None?;
  }

  /** A batch on a header whose own parent is missing: it is stored although the insert fails. */
  method StoredThoughRefused(c: HeaderChain) returns (ok: bool)
    requires c.headers == map[1 := GENESIS, 3 := ORPHAN] && c.canonical == map[0 := 1] && c.head == GENESIS
    modifies c
    ensures old(c.Valid()) && !ok && CHILD.hash in c.headers
  {
    OrphanedBatch(c.headers);
    assert c.Valid();
    ok := c.InsertHeaders([CHILD]);
  }

  const SECOND := Block(2, 1, 1, 11, 1, [], [])
  const OTHER := Block(5, 1, 1, 15, 1, [], [])
  const THIRD := Block(3, 2, 2, 12, 2, [], [])
  const FOURTH := Block(4, 3, 3, 13, 3, [], [])
  const FORKED: Store := map[1 := GENESIS, 2 := SECOND, 3 := THIRD, 4 := FOURTH, 5 := OTHER]

  lemma Forked()
    ensures WellFormed(FORKED) && Path(FORKED, OTHER) == [1, 5] && Path(FORKED, THIRD) == [1, 2, 3]
    ensures Parent(FORKED, FOURTH) == Some(THIRD)
  {
    assert Parent(FORKED, THIRD) == Some(SECOND) && Parent(FORKED, SECOND) == Some(GENESIS) && Parent(FORKED, OTHER) == Some(GENESIS);
    assert Path(FORKED, SECOND) == [1, 2];
    assert forall h | h in FORKED :: Linked(FORKED, FORKED[h]);
  }

  const SIXTH := Block(6, 5, 2, 16, 2, [], [])
  const TWIN: Store := FORKED[6 := SIXTH]

  lemma Twin()
    ensures WellFormed(TWIN) && Stored(TWIN, SIXTH) && Rooted(TWIN, SIXTH) && Path(TWIN, SIXTH) == [1, 5, 6]
  {
    assert Parent(TWIN, SIXTH) == Some(OTHER) && Parent(TWIN, OTHER) == Some(GENESIS);
    assert Path(TWIN, OTHER) == [1, 5];
    assert forall h | h in TWIN :: Linked(TWIN, TWIN[h]);
  }

  lemma TwinWalk()
    ensures Walk(TWIN, 4, 3, 0) == Some(4) && Walk(TWIN, 4, 3, 2) == Some(2)
  {
    assert Walk(TWIN, 4, 3, 0) == Some(4) && Walk(TWIN, 4, 3, 1) == Some(3);
  }

  const TWIN_TABLE: map<nat, Hash> := map[0 := 1, 1 := 5, 2 := 6, 3 := 4]

  lemma TwinTable()
    ensures Unbroken(TWIN_TABLE)
  {
    assert |TWIN_TABLE| == 4;
    forall n: nat
      ensures SlotFilled(TWIN_TABLE, n)
    {
    }
  }

  lemma TwinIsSound()
    ensures Sound(TWIN, TWIN_TABLE, SIXTH)
  {
    Twin();
    TwinTable();
    var p := Path(TWIN, SIXTH);
    forall n: nat | n <= 2
      ensures Slot(TWIN_TABLE, n) == p[n]
    {
    }
  }

  ghost predicate TwinChain(c: HeaderChain)
    reads c
  {
    c.headers == TWIN && c.canonical == TWIN_TABLE && c.head == SIXTH
  }

  lemma TwinMisleads(c: HeaderChain)
    requires TwinChain(c)
    ensures c.Sane() && c.Misled(4, 3, 2, 100)
  {
    TwinIsSound();
    TwinWalk();
    assert Slot(TWIN_TABLE, 3) == 4 && Slot(TWIN_TABLE, 1) == 5;
    assert c.MeetsAt(4, 3, 2, 100, 0) && c.Apart(3, 1);
  }

  /** A slot left above the head misleads a query too: the second ancestor of a block on the old chain
      comes out as a block of the new one. */
  method MisledAncestor(c: HeaderChain) returns (r: Hash)
    requires TwinChain(c)
    ensures c.Sane() && r != ZERO_HASH && Walk(c.headers, 4, 3, 2) == Some(2) && r != 2
  {
    TwinWalk();
    TwinMisleads(c);
    var n, budget;
    r, n, budget := c.GetAncestor(4, 3, 2, 100);
  }

  /** A slot left above the head misleads a later batch: relinking stops at it, and the table that
      results is no block's path. */
  method TableMisled(c: HeaderChain) returns (ok: bool)
    requires c.headers == FORKED && c.canonical == map[0 := 1, 1 := 5, 2 := 3] && c.head == OTHER
    modifies c
    ensures old(c.Sane()) && ok && c.head == FOURTH && !c.Valid()
  {
    Forked();
    assert forall n: nat :: SlotFilled(c.canonical, n);
    assert c.Sane();
    assert Ancestor(FORKED, FOURTH, 0) == Some(FOURTH) && Ancestor(FORKED, FOURTH, 1) == Some(THIRD);
    assert CrossesAt(FORKED, c.canonical, FOURTH, 1);
    ghost var k;
    ok, k := c.Reorg([FOURTH]);
    assert k == 1;
    assert Path(FORKED, THIRD)[1] == 2;
  }
}
