/** The chain indexer: stores one head per section of the canonical chain, letting go of its lock
    while a section is processed and the chain may move. */
module ChainIndexers {
  import opened Options
  import opened Words
  import opened ContentHashes
  import opened BlockTree
  import opened SectionIndexes
  import opened IndexerRaces

  /** One more, in 64 bits. */
  function Succ(n: nat): nat {
    if n == U64 - 1 then 0 else n + 1
  }

  /** Heads of the one table are heads of the other. */
  ghost predicate Fewer(heads: map<nat, Hash>, was: map<nat, Hash>) {
    forall i: nat | i in heads :: i in was && heads[i] == was[i]
  }

  lemma FewerStill(a: map<nat, Hash>, b: map<nat, Hash>, c: map<nat, Hash>)
    requires Fewer(a, b) && Fewer(b, c)
    ensures Fewer(a, c)
  {
  }

  /** A failed reset: the index it met, and how its steps and those of locked operations fell. */
  datatype Incident = Incident(from: Memory, run: seq<Step>) {

    ghost predicate Ended(size: nat) {
      Settled(Run(size, Start(from), run))
    }

    ghost predicate Peaceful(size: nat) {
      NoClash(size, Start(from), run)
    }
  }

  /** What reading a section asks of block `n`: it is known, present, linked to the block before it, and
      the backend takes it. */
  ghost predicate Reads(hs: Headers, canon: nat -> Hash, present: Hash -> bool, backend: nat -> bool, first: nat, before: Hash, n: nat) {
    && canon(n) != ZERO_HASH && present(canon(n)) && hs.number(canon(n)) == n && backend(1 + n)
    && hs.parent(canon(n)) == if n > first then canon(n - 1) else before
  }

  /** The number of a section's first block. */
  function First(size: nat, section: nat): nat
    requires size > 0
  {
    if section == 0 then 0 else Last(size, section - 1) + 1
  }

  /** Every one of `size` blocks reads, the first one continuing `before`, and the backend commits. */
  ghost predicate Readable(hs: Headers, first: nat, size: nat, before: Hash, canon: nat -> Hash, present: Hash -> bool, backend: nat -> bool) {
    && (forall n: nat | first <= n < first + size :: Reads(hs, canon, present, backend, first, before, n))
    && backend(1 + first + size)
  }

  /** Having read `k` blocks, up to `last`. */
  ghost predicate Halfway(hs: Headers, canon: nat -> Hash, present: Hash -> bool, backend: nat -> bool, first: nat, before: Hash, k: nat, last: Hash) {
    && (forall n: nat | first <= n < first + k :: Reads(hs, canon, present, backend, first, before, n))
    && hs.Up(last, k) == before && (k == 0 ==> last == before)
    && (k > 0 ==> last == canon(first + k - 1) && last != ZERO_HASH && hs.number(last) == first + k - 1 && (first > 0 ==> before != ZERO_HASH))
  }

  /** One more block either reads or keeps the section from reading. */
  lemma OneMore(hs: Headers, canon: nat -> Hash, present: Hash -> bool, backend: nat -> bool, first: nat, size: nat, before: Hash, k: nat, last: Hash)
    requires Halfway(hs, canon, present, backend, first, before, k, last) && k < size
    requires forall h: Hash | hs.number(h) > 0 :: hs.parent(h) != ZERO_HASH
    ensures var n, hash := first + k, canon(first + k);
            if hash != ZERO_HASH && present(hash) && hs.number(hash) == n && hs.parent(hash) == last && backend(1 + n)
            then Halfway(hs, canon, present, backend, first, before, k + 1, hash)
            else !Readable(hs, first, size, before, canon, present, backend)
  {
    assert Reads(hs, canon, present, backend, first, before, first + k) <==>
           && canon(first + k) != ZERO_HASH && present(canon(first + k)) && hs.number(canon(first + k)) == first + k
           && hs.parent(canon(first + k)) == last && backend(1 + first + k);
  }

  method FirstBlock(size: nat, section: nat) returns (number: nat)
    requires size > 0
    ensures number == First(size, section)
  {
    number := section * size;
    SectionEnds(size, section);
  }

  /** Reads a section block by block. `canon` and `present` are what the reads return, each number being read
      once, so a chain that moves between the reads is covered; `backend` says which calls into the
      backend succeed. */
  method ReadSection(hs: Headers, size: nat, section: nat, before: Hash, canon: nat -> Hash, present: Hash -> bool, backend: nat -> bool)
    returns (head: Option<Hash>)
    requires size > 0 && forall h: Hash | hs.number(h) > 0 :: hs.parent(h) != ZERO_HASH
    ensures head.Some? <==> Readable(hs, First(size, section), size, before, canon, present, backend)
    ensures head.Some? ==> head.value == canon(Last(size, section))
    ensures head.Some? ==> Section(hs, size, section, before, head.value) && (section > 0 ==> before != ZERO_HASH)
  {
    var number := FirstBlock(size, section);
    var last, end := before, number + size;
    ghost var first, k := number, 0;
    while number < end
      invariant number == first + k && k <= size && Halfway(hs, canon, present, backend, first, before, k, last)
    {
      OneMore(hs, canon, present, backend, first, size, before, k, last);
      var hash := canon(number);
      if hash == ZERO_HASH || !present(hash) || hs.number(hash) != number || hs.parent(hash) != last || !backend(1 + number) {
        return None;
      }
      last, number, k := hash, number + 1, k + 1;
    }
    head := if backend(1 + number) then Some(last) else None;
  }

  /** The head of the last counted section. */
  ghost function Top(m: Memory): Hash {
    if m.stored == 0 then ZERO_HASH else Slot(m.heads, m.stored - 1)
  }

  /** A canonical chain that is present up to the end of a section, with a backend that never fails. */
  ghost predicate Ready(hs: Headers, size: nat, section: nat, canon: nat -> Hash, present: Hash -> bool, backend: nat -> bool)
    requires size > 0
  {
    && Canonical(hs, canon) && hs.parent(canon(0)) == ZERO_HASH && (forall i: nat :: backend(i))
    && (forall n: nat | n <= Last(size, section) :: canon(n) != ZERO_HASH && present(canon(n)) && hs.number(canon(n)) == n)
  }

  /** A round adds a section exactly when the reset succeeds, the section after those of `begun` reads, and
      the index at `atLock` still ends where it did. */
  ghost predicate Adds(hs: Headers, size: nat, begun: Memory, atLock: Memory, canon: nat -> Hash, present: Hash -> bool, backend: nat -> bool)
    requires size > 0
  {
    && backend(0) && Readable(hs, First(size, begun.stored), size, Top(begun), canon, present, backend)
    && (begun.stored == 0 || Slot(atLock.heads, begun.stored - 1) == Top(begun))
  }

  /** On such a chain the next section reads on top of an index that ends in the chain. */
  lemma ReadyReads(hs: Headers, size: nat, m: Memory, canon: nat -> Hash, present: Hash -> bool, backend: nat -> bool)
    requires size > 0 && Ready(hs, size, m.stored, canon, present, backend) && forall h: Hash :: hs.number(h) < U64
    requires m.stored > 0 ==> Top(m) == canon(End(size, m.stored - 1))
    ensures Readable(hs, First(size, m.stored), size, Top(m), canon, present, backend)
  {
    var first := First(size, m.stored);
    if m.stored > 0 {
      assert hs.number(canon(Last(size, m.stored - 1))) == Last(size, m.stored - 1);
    }
    forall n: nat | first <= n < first + size
      ensures Reads(hs, canon, present, backend, first, Top(m), n)
    {
      assert canon(n) != ZERO_HASH;
      assert n > 0 ==> hs.parent(canon(n)) == canon(n - 1);
    }
  }

  class ChainIndexer {
    const hs: Headers
    const sectionSize: nat
    const confirmsReq: nat
    var storedSections: nat
    var knownSections: nat
    var cascadedHead: nat
    var heads: map<nat, Hash>

    /** What holds whatever a reset has done: counts and block numbers fit 64 bits, no head is zero and
        only the genesis header has no parent. */
    ghost predicate Valid()
      reads this
    {
      && sectionSize > 0 && storedSections < U64 && knownSections < U64 && (forall i: nat | i in heads :: heads[i] != ZERO_HASH)
      && (forall h: Hash :: hs.number(h) < U64) && forall h: Hash | hs.number(h) > 0 :: hs.parent(h) != ZERO_HASH
    }

    /** Exactly the counted sections have heads, each continuing the one below. */
    ghost predicate Whole()
      reads this
    {
      Valid() && HashLinked(hs, sectionSize, heads, storedSections)
    }

    constructor (hs: Headers, sectionSize: nat, confirmsReq: nat)
      requires sectionSize > 0 && (forall h: Hash :: hs.number(h) < U64) && forall h: Hash | hs.number(h) > 0 :: hs.parent(h) != ZERO_HASH
      ensures Whole() && storedSections == 0
    {
      this.hs, this.sectionSize, this.confirmsReq := hs, sectionSize, confirmsReq;
      storedSections, knownSections, cascadedHead, heads := 0, 0, 0, map[];
    }

    method SectionHead(section: nat) returns (hash: Hash)
      requires Valid()
      ensures hash == Slot(heads, section)
      ensures section in heads <==> hash != ZERO_HASH
    {
      hash := if section in heads then heads[section] else ZERO_HASH;
    }

    /** Drops the heads of sections that are no longer valid. */
    method SetValidSections(sections: nat)
      modifies `storedSections, `heads
      ensures storedSections == sections && heads == Cut(old(heads), sections, old(storedSections))
      ensures sections >= old(storedSections) ==> heads == old(heads)
    {
      while storedSections > sections
        invariant storedSections <= old(storedSections)
        invariant storedSections == old(storedSections) || sections <= storedSections
        invariant heads == Cut(old(heads), storedSections, old(storedSections))
      {
        storedSections := storedSections - 1;
        heads := heads - {storedSections};
      }
      storedSections := sections;
    }

    /** Falling back to fewer sections keeps the rest. */
    method FallBack(sections: nat)
      requires Valid() && sections <= storedSections
      modifies `storedSections, `heads
      ensures Valid() && storedSections == sections && heads == Cut(old(heads), sections, old(storedSections))
      ensures old(Whole()) ==> Whole()
    {
      ghost var before := heads;
      SetValidSections(sections);
      if HashLinked(hs, sectionSize, before, old(storedSections)) {
        LinkedBelow(hs, sectionSize, before, old(storedSections), heads, sections);
      }
    }

    /** Reverts to `known` sections. */
    method Revert(known: nat)
      requires Valid()
      modifies `storedSections, `heads, `knownSections, `cascadedHead
      ensures Valid() && heads == Cut(old(heads), storedSections, old(storedSections)) && (old(Whole()) ==> Whole())
      ensures storedSections == if known < old(storedSections) then known else old(storedSections)
      ensures knownSections == if known < old(knownSections) then known else old(knownSections)
      ensures cascadedHead == if known * sectionSize < old(cascadedHead) then known * sectionSize else old(cascadedHead)
    {
      if known < knownSections {
        knownSections := known;
      }
      if known < storedSections {
        FallBack(known);
      }
      var end := known * sectionSize;
      if end < cascadedHead {
        cascadedHead := end;
      }
    }

    /** A reorg notification: sections that reach above the common ancestor are dropped. Otherwise a
        new head, which makes a section known once it is buried deep enough. */
    method NewHead(head: nat, reorg: bool)
      requires Valid() && head < U64
      modifies `storedSections, `heads, `knownSections, `cascadedHead
      ensures Valid() && heads == Cut(old(heads), storedSections, old(storedSections)) && (old(Whole()) ==> Whole())
      ensures reorg && head + 1 < U64 ==>
                forall i: nat {:trigger Last(sectionSize, i)} ::
                  && (i < storedSections <==> i < old(storedSections) && Last(sectionSize, i) <= head)
                  && (i < knownSections <==> i < old(knownSections) && Last(sectionSize, i) <= head)
      ensures reorg ==> cascadedHead <= old(cascadedHead) && storedSections <= old(storedSections)
      ensures !reorg ==> storedSections == old(storedSections) && cascadedHead == old(cascadedHead)
      ensures !reorg && (head + 1 < U64 || confirmsReq > 0) ==>
                forall i: nat {:trigger Last(sectionSize, i)} ::
                  i < knownSections <==> i < old(knownSections) || Last(sectionSize, i) + confirmsReq <= head
    {
      if reorg {
        var known := Quotient(Succ(head), sectionSize);
        Revert(known);
      } else if head >= confirmsReq {
        var sections := Quotient(Succ(head - confirmsReq), sectionSize);
        if sections > knownSections {
          knownSections := sections;
        }
      }
    }

    /** Whether the last counted head is the canonical block at its height. */
    method LastMatches(canon: nat -> Hash) returns (matches: bool)
      requires Valid() && storedSections > 0
      ensures matches <==> Slot(heads, storedSections - 1) == canon(End(sectionSize, storedSections - 1))
    {
      var head := SectionHead(storedSections - 1);
      LastIs(sectionSize, storedSections - 1);
      matches := head == canon(Height(sectionSize, storedSections));
    }

    /** Falls back until the last counted head is the canonical block at its height. On a whole index
        over a canonical chain exactly the sections with canonical heads remain. Any other index
        becomes whole exactly when it is mendable. */
    method VerifyLastHead(canon: nat -> Hash)
      requires Valid()
      modifies `storedSections, `heads
      ensures Valid() && storedSections <= old(storedSections) && heads == Cut(old(heads), storedSections, old(storedSections))
      ensures Dropped(sectionSize, old(heads), storedSections, old(storedSections), canon)
      ensures storedSections > 0 ==> Slot(heads, storedSections - 1) == canon(End(sectionSize, storedSections - 1))
      ensures Whole() <==> Mendable(hs, sectionSize, old(heads), old(storedSections), canon)
      ensures old(Whole()) ==> Whole()
      ensures old(Whole()) && Canonical(hs, canon) ==> KeptIfCanonical(sectionSize, old(heads), storedSections, old(storedSections), canon)
    {
      while storedSections > 0
        invariant Valid() && storedSections <= old(storedSections) && heads == Cut(old(heads), storedSections, old(storedSections))
        invariant Dropped(sectionSize, old(heads), storedSections, old(storedSections), canon)
        invariant old(Whole()) ==> Whole()
        decreases storedSections
      {
        var matches := LastMatches(canon);
        assert Slot(heads, storedSections - 1) == Slot(old(heads), storedSections - 1);
        if matches {
          break;
        }
        FallBack(storedSections - 1);
      }
      Mends(hs, sectionSize, old(heads), storedSections, old(storedSections), canon);
      if old(Whole()) && Canonical(hs, canon) {
        ExactlyCanonical(hs, sectionSize, old(heads), storedSections, old(storedSections), canon);
      }
    }

    /** What may happen while the lock is free and no reset is at work: heads, reorgs, and queries that
        fall back. */
    method Others()
      requires Valid()
      modifies `storedSections, `heads, `knownSections, `cascadedHead
      ensures Valid() && storedSections <= old(storedSections) && heads == Cut(old(heads), storedSections, old(storedSections))
      ensures old(Whole()) ==> Whole()
    {
      var some: int := *;
      for i := 0 to if some < 0 then 0 else some
        invariant Valid() && storedSections <= old(storedSections) && heads == Cut(old(heads), storedSections, old(storedSections))
        invariant old(Whole()) ==> Whole()
      {
        var head: int, kind: int := *, *;
        if kind == 0 {
          var canon: nat -> Hash := *;
          VerifyLastHead(canon);
        } else if 0 <= head < U64 {
          NewHead(head, kind == 1);
        }
      }
    }

    /** A failed reset clears the index without the lock, while other goroutines take it any number of
        times: any schedule that lets both sides finish. */
    method ResetFailed() returns (ghost run: seq<Step>)
      requires Valid()
      modifies `storedSections, `heads, `knownSections, `cascadedHead
      ensures Valid()
      ensures var q := Run(sectionSize, Start(old(Memory(storedSections, heads))), run);
              Settled(q) && storedSections == q.m.stored && heads == q.m.heads
      ensures Fewer(heads, old(heads))
      ensures old(Whole()) && NoClash(sectionSize, Start(old(Memory(storedSections, heads))), run) ==> Whole()
    {
      var start := Start(Memory(storedSections, heads));
      ghost var undisturbed := ResetEnds(sectionSize, start.m);
      var steps: seq<Step> :| Settled(Run(sectionSize, start, steps));
      var known: nat, cascaded: nat := *, *;
      StaysWithin(sectionSize, start, heads, steps);
      if HashLinked(hs, sectionSize, heads, storedSections) && NoClash(sectionSize, start, steps) {
        LinkedUnlessClash(hs, sectionSize, start.m, steps);
      }
      var end := Run(sectionSize, start, steps);
      storedSections, heads, knownSections, cascadedHead, run := end.m.stored, end.m.heads, known % U64, cascaded, steps;
    }

    /** Resets the backend and reads a section, with the lock free. Reading does not look at the index, so
        what others do to it meanwhile can come all at once. If the reset fails, `failed` is the index it
        met and the schedule, and the index stays whole without a clash. */
    method ProcessSection(section: nat, before: Hash, canon: nat -> Hash, present: Hash -> bool, backend: nat -> bool)
      returns (head: Option<Hash>, ghost failed: Option<Incident>)
      requires Valid()
      modifies `storedSections, `heads, `knownSections, `cascadedHead
      ensures Valid() && Fewer(heads, old(heads))
      ensures old(Whole()) && (failed.Some? ==> failed.value.Peaceful(sectionSize)) ==> Whole()
      ensures failed.Some? <==> !backend(0)
      ensures failed.Some? ==> head.None? && failed.value.Ended(sectionSize)
      ensures failed.None? ==> storedSections <= old(storedSections) && heads == Cut(old(heads), storedSections, old(storedSections))
      ensures head.Some? <==> backend(0) && Readable(hs, First(sectionSize, section), sectionSize, before, canon, present, backend)
      ensures head.Some? ==> head.value == canon(Last(sectionSize, section))
      ensures head.Some? ==> Section(hs, sectionSize, section, before, head.value) && (section > 0 ==> before != ZERO_HASH)
    {
      Others();
      failed := None;
      if !backend(0) {
        ghost var from := Memory(storedSections, heads);
        ghost var run := ResetFailed();
        failed := Some(Incident(from, run));
        Others();
        return None, failed;
      }
      head := ReadSection(hs, sectionSize, section, before, canon, present, backend);
    }

    /** Marks a section completed. */
    method Complete(section: nat, head: Hash, ghost oldHead: Hash)
      requires Valid() && section == storedSections && section + 1 < U64 && Section(hs, sectionSize, section, oldHead, head)
      requires oldHead == if section == 0 then ZERO_HASH else Slot(heads, section - 1)
      modifies `storedSections, `heads, `cascadedHead
      ensures Valid() && storedSections == section + 1 && heads == old(heads)[section := head]
      ensures old(Whole()) ==> Whole()
      ensures cascadedHead == Last(sectionSize, section)
    {
      if HashLinked(hs, sectionSize, heads, section) {
        assert Before(heads, section) == oldHead;
        LinkedAbove(hs, sectionSize, heads, section, head);
      }
      heads := heads[section := head];
      SetValidSections(section + 1);
      LastIs(sectionSize, section);
      cascadedHead := Height(sectionSize, storedSections);
    }

    /** Up to the point where the lock is let go: the section to process, and the head it is to
        continue. */
    method Begin(canon: nat -> Hash) returns (section: nat, oldHead: Hash)
      requires Valid()
      modifies `storedSections, `heads
      ensures Valid() && storedSections <= old(storedSections) && heads == Cut(old(heads), storedSections, old(storedSections))
      ensures old(Whole()) ==> Whole()
      ensures section == storedSections && oldHead == Top(Memory(storedSections, heads))
      ensures section > 0 ==> oldHead == canon(End(sectionSize, section - 1))
    {
      VerifyLastHead(canon);
      section, oldHead := storedSections, ZERO_HASH;
      if section > 0 {
        oldHead := SectionHead(section - 1);
      }
    }

    /** With the lock held again: the section is recorded only if the sections below it are still the
        ones it was processed on. */
    method Finish(section: nat, oldHead: Hash, newHead: Option<Hash>, canon: nat -> Hash) returns (added: bool)
      requires Valid() && section + 1 < U64 && (section == 0 ==> oldHead == ZERO_HASH)
      requires newHead.Some? ==> Section(hs, sectionSize, section, oldHead, newHead.value) && (section > 0 ==> oldHead != ZERO_HASH)
      requires newHead.Some? ==> storedSections <= section && (storedSections < section ==> section - 1 !in heads)
      modifies `storedSections, `heads, `knownSections, `cascadedHead
      ensures Valid() && (old(Whole()) ==> Whole())
      ensures added <==> newHead.Some? && (section == 0 || Slot(old(heads), section - 1) == oldHead)
      ensures added ==> && old(storedSections) == section && storedSections == section + 1
                        && heads == old(heads)[section := newHead.value] && cascadedHead == Last(sectionSize, section)
      ensures !added ==> knownSections == storedSections && heads == Cut(old(heads), storedSections, old(storedSections))
      ensures !added ==> (Whole() <==> Mendable(hs, sectionSize, old(heads), old(storedSections), canon))
      ensures Fewer(if added then heads - {section} else heads, old(heads))
    {
      added := newHead.Some?;
      if section > 0 {
        var now := SectionHead(section - 1);
        added := added && oldHead == now;
      }
      if added {
        Complete(section, newHead.value, oldHead);
      } else {
        VerifyLastHead(canon);
        knownSections := storedSections;
      }
    }

    /** The part of a round with the lock free and taken again, for a section that continues `oldHead`. */
    method ProcessAndFinish(section: nat, oldHead: Hash, canon: nat -> Hash, present: Hash -> bool, backend: nat -> bool, after: nat -> Hash)
      returns (added: bool, ghost failed: Option<Incident>, ghost atLock: Memory)
      requires Valid() && section == storedSections && section + 1 < U64 && oldHead == Top(Memory(storedSections, heads))
      modifies `storedSections, `heads, `knownSections, `cascadedHead
      ensures Valid()
      ensures added <==> Adds(hs, sectionSize, old(Memory(storedSections, heads)), atLock, canon, present, backend)
      ensures added ==> storedSections == section + 1 && Slot(heads, section) == canon(Last(sectionSize, section)) && cascadedHead == Last(sectionSize, section)
      ensures old(Whole()) && (failed.Some? ==> failed.value.Peaceful(sectionSize)) ==> Whole()
      ensures (failed.Some? <==> !backend(0)) && (failed.Some? ==> failed.value.Ended(sectionSize))
      ensures !added ==> knownSections == storedSections && (Whole() <==> Mendable(hs, sectionSize, atLock.heads, atLock.stored, after))
      ensures Fewer(if added then heads - {section} else heads, old(heads))
    {
      var newHead;
      newHead, failed := ProcessSection(section, oldHead, canon, present, backend);
      atLock := Memory(storedSections, heads);
      ghost var readable := Readable(hs, First(sectionSize, section), sectionSize, oldHead, canon, present, backend);
      assert newHead.Some? <==> backend(0) && readable;
      added := Finish(section, oldHead, newHead, after);
      assert added <==> backend(0) && readable && (section == 0 || Slot(atLock.heads, section - 1) == oldHead);
      assert Fewer(if added then heads - {section} else heads, old(heads)) by {
        FewerStill(if added then heads - {section} else heads, atLock.heads, old(heads));
      }
    }

    /** One round of the update loop. The sections that remain are old ones, with at most one more on
        top; a round that adds none is not retried until the next notification. `begun` is the index when
        the lock is let go, `atLock` when it is taken again. On a canonical chain that nobody disturbs a
        round with a known section to do adds it. A whole index stays whole unless a failed reset
        clashed with an operation; a round that adds none mends the index exactly when it was
        mendable at `atLock`. */
    method Update(before: nat -> Hash, canon: nat -> Hash, present: Hash -> bool, backend: nat -> bool, after: nat -> Hash)
      returns (added: bool, ghost failed: Option<Incident>, ghost begun: Memory, ghost atLock: Memory)
      requires Valid()
      modifies `storedSections, `heads, `knownSections, `cascadedHead
      ensures Valid()
      ensures added <==> old(knownSections) > old(storedSections) && Adds(hs, sectionSize, begun, atLock, canon, present, backend)
      ensures added ==> storedSections == begun.stored + 1 && Top(Memory(storedSections, heads)) == canon(Last(sectionSize, begun.stored))
      ensures old(knownSections) > old(storedSections) && before == canon && atLock == begun ==>
                (Ready(hs, sectionSize, begun.stored, canon, present, backend) ==> added)
      ensures old(Whole()) && (failed.Some? ==> failed.value.Peaceful(sectionSize)) ==> Whole()
      ensures failed.Some? <==> !backend(0) && old(knownSections) > old(storedSections)
      ensures failed.Some? ==> failed.value.Ended(sectionSize)
      ensures !added && old(knownSections) > old(storedSections) ==>
                knownSections == storedSections && (Whole() <==> Mendable(hs, sectionSize, atLock.heads, atLock.stored, after))
      ensures added ==> cascadedHead == Last(sectionSize, begun.stored)
      ensures Fewer(if added then heads - {begun.stored} else heads, old(heads))
    {
      added, failed, atLock := false, None, Memory(storedSections, heads);
      begun := atLock;
      if knownSections > storedSections {
        var section, oldHead := Begin(before);
        begun := Memory(storedSections, heads);
        if before == canon && Ready(hs, sectionSize, section, canon, present, backend) {
          ReadyReads(hs, sectionSize, begun, canon, present, backend);
        }
        added, failed, atLock := ProcessAndFinish(section, oldHead, canon, present, backend, after);
        FewerStill(if added then heads - {section} else heads, begun.heads, old(heads));
      }
    }

    /** What the indexer reports: on a whole index over a canonical chain every section it counts has a
        canonical head. */
    method Sections(canon: nat -> Hash) returns (count: nat, number: nat, head: Hash)
      requires Valid()
      modifies `storedSections, `heads
      ensures Valid() && count == storedSections <= old(storedSections) && (old(Whole()) ==> Whole())
      ensures count == 0 ==> number == U64 - 1 && head == Slot(heads, U64 - 1) && (old(Whole()) ==> head == ZERO_HASH)
      ensures count > 0 ==> number == End(sectionSize, count - 1) && head == Slot(heads, count - 1) == canon(number)
      ensures old(Whole()) && Canonical(hs, canon) ==> KeptIfCanonical(sectionSize, old(heads), count, old(storedSections), canon)
    {
      VerifyLastHead(canon);
      count := storedSections;
      if count > 0 {
        LastIs(sectionSize, count - 1);
      }
      number := Height(sectionSize, storedSections);
      head := SectionHead(Pred(count));
    }
  }

  /** A section's numbers. */
  lemma SectionEnds(size: nat, section: nat)
    requires size > 0
    ensures First(size, section) == section * size && Last(size, section) == section * size + size - 1 && (section > 0 ==> section * size > 0)
  {
    LastIs(size, section);
    if section > 0 {
      MulMono(size, 1, section);
    }
  }

  lemma Fits(size: nat, sections: nat, rest: nat, i: nat)
    requires size > 0 && rest < size
    ensures i < sections <==> Last(size, i) < sections * size + rest
    ensures sections <= sections * size
  {
    LastIs(size, i);
    MulMono(sections, 1, size);
    if i < sections {
      MulMono(size, i + 1, sections);
    } else {
      MulMono(size, sections + 1, i + 1);
    }
  }

  /** How many whole sections fit below a block count. */
  method Quotient(count: nat, size: nat) returns (sections: nat)
    requires size > 0
    ensures sections <= count && forall i: nat {:trigger Last(size, i)} :: i < sections <==> Last(size, i) < count
  {
    sections := count / size;
    ghost var rest := count % size;
    assert count == sections * size + rest;
    Fits(size, sections, rest, 0);
    forall i: nat
      ensures i < sections <==> Last(size, i) < count
    {
      Fits(size, sections, rest, i);
    }
  }
}
