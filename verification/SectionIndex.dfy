/** The chain indexer's table: one head per section of the chain, each section hash-linked to the one
    below it. */
module SectionIndexes {
  import opened Words
  import opened ContentHashes
  import opened BlockTree

  /** The number of a section's last block. */
  function Last(size: nat, section: nat): nat
    requires size > 0
  {
    if section == 0 then size - 1 else Last(size, section - 1) + size
  }

  lemma {:induction false} LastIs(size: nat, section: nat)
    requires size > 0
    ensures Last(size, section) == (section + 1) * size - 1
  {
    if section > 0 {
      LastIs(size, section - 1);
    }
  }

  /** `head` ends a section that starts right above `before`. */
  ghost predicate Section(hs: Headers, size: nat, section: nat, before: Hash, head: Hash)
    requires size > 0
  {
    head != ZERO_HASH && hs.number(head) == Last(size, section) && hs.Up(head, size) == before
  }

  ghost function Before(heads: map<nat, Hash>, section: nat): Hash
    requires section > 0 ==> section - 1 in heads
  {
    if section == 0 then ZERO_HASH else heads[section - 1]
  }

  /** The lowest `p` sections have their heads, each continuing the one below. */
  ghost predicate LinkedUpTo(hs: Headers, size: nat, heads: map<nat, Hash>, p: nat)
    requires size > 0
  {
    && (forall i: nat | i < p :: i in heads)
    && (forall i: nat {:trigger Before(heads, i)} | i < p :: Section(hs, size, i, Before(heads, i), heads[i]))
  }

  ghost predicate CountedOnly(heads: map<nat, Hash>, stored: nat) {
    forall i: nat | i in heads :: i < stored
  }

  /** The table holds a head for exactly the stored sections, and each section continues the one
      before it. */
  ghost predicate HashLinked(hs: Headers, size: nat, heads: map<nat, Hash>, stored: nat)
    requires size > 0
  {
    CountedOnly(heads, stored) && LinkedUpTo(hs, size, heads, stored)
  }

  lemma SameUpTo(hs: Headers, size: nat, heads: map<nat, Hash>, same: map<nat, Hash>, p: nat)
    requires size > 0 && LinkedUpTo(hs, size, heads, p) && forall i: nat | i < p :: i in same && same[i] == heads[i]
    ensures LinkedUpTo(hs, size, same, p)
  {
    forall i: nat {:trigger Before(same, i)} | i < p
      ensures Section(hs, size, i, Before(same, i), same[i])
    {
      assert Before(same, i) == Before(heads, i);
    }
  }

  /** Dropping the upper sections keeps the rest linked. */
  lemma LinkedBelow(hs: Headers, size: nat, heads: map<nat, Hash>, stored: nat, kept: map<nat, Hash>, sections: nat)
    requires size > 0 && HashLinked(hs, size, heads, stored) && sections <= stored
    requires forall i: nat :: i in kept <==> i < sections
    requires forall i: nat | i < sections :: kept[i] == heads[i]
    ensures HashLinked(hs, size, kept, sections)
  {
    SameUpTo(hs, size, heads, kept, sections);
  }

  /** A section processed on the last stored one extends the index. */
  lemma LinkedAbove(hs: Headers, size: nat, heads: map<nat, Hash>, stored: nat, head: Hash)
    requires size > 0 && HashLinked(hs, size, heads, stored) && Section(hs, size, stored, Before(heads, stored), head)
    ensures HashLinked(hs, size, heads[stored := head], stored + 1)
  {
    var more := heads[stored := head];
    forall i: nat | i < stored + 1
      ensures Section(hs, size, i, Before(more, i), more[i])
    {
      assert Before(more, i) == Before(heads, i);
      assert i < stored ==> more[i] == heads[i];
    }
    assert forall i: nat :: i in more <==> i < stored + 1;
  }

  // ---- A canonical chain ----

  /** A canonical map that is a path: nothing above a gap, every block on its parent. */
  ghost predicate Canonical(hs: Headers, canon: nat -> Hash) {
    forall n: nat {:trigger hs.parent(canon(n))} | n > 0 && canon(n) != ZERO_HASH ::
      canon(n - 1) != ZERO_HASH && hs.parent(canon(n)) == canon(n - 1)
  }

  lemma {:induction false} CanonicalUp(hs: Headers, canon: nat -> Hash, n: nat, k: nat)
    requires Canonical(hs, canon) && canon(n) != ZERO_HASH && k <= n
    ensures hs.Up(canon(n), k) == canon(n - k)
  {
    if k > 0 {
      assert hs.parent(canon(n)) == canon(n - 1);
      CanonicalUp(hs, canon, n - 1, k - 1);
    }
  }

  lemma SectionBelow(hs: Headers, size: nat, canon: nat -> Hash, before: Hash, head: Hash, n: nat)
    requires Canonical(hs, canon) && head != ZERO_HASH && head == canon(n) && size <= n && hs.Up(head, size) == before
    ensures before == canon(n - size)
  {
    CanonicalUp(hs, canon, n, size);
  }

  lemma OneDown(hs: Headers, size: nat, heads: map<nat, Hash>, stored: nat, canon: nat -> Hash, top: nat)
    requires size > 0 && HashLinked(hs, size, heads, stored) && Canonical(hs, canon)
    requires 0 < top < stored && heads[top] == canon(Last(size, top))
    ensures heads[top - 1] == canon(Last(size, top - 1))
  {
    assert Section(hs, size, top, Before(heads, top), heads[top]);
    SectionBelow(hs, size, canon, heads[top - 1], heads[top], Last(size, top));
  }

  /** If one stored head is canonical, so are all below it. */
  lemma {:induction false} AllCanonical(hs: Headers, size: nat, heads: map<nat, Hash>, stored: nat, canon: nat -> Hash, top: nat, i: nat)
    requires size > 0 && HashLinked(hs, size, heads, stored) && Canonical(hs, canon)
    requires i <= top < stored && heads[top] == canon(Last(size, top))
    ensures heads[i] == canon(Last(size, i))
    decreases top - i
  {
    if i < top {
      OneDown(hs, size, heads, stored, canon, top);
      AllCanonical(hs, size, heads, stored, canon, top - 1, i);
    }
  }

  // ---- Falling back along the chain ----

  /** The number, in 64 bits, of a section's last block. */
  function End(size: nat, section: nat): nat
    requires size > 0
  {
    Last(size, section) % U64
  }

  /** Every section from `stored` up had a head other than the canonical one. */
  ghost predicate Dropped(size: nat, was: map<nat, Hash>, stored: nat, wasStored: nat, canon: nat -> Hash)
    requires size > 0
  {
    forall i: nat {:trigger Slot(was, i)} | stored <= i < wasStored :: Slot(was, i) != canon(End(size, i))
  }

  /** The sections that remain are exactly those whose head is canonical. */
  ghost predicate KeptIfCanonical(size: nat, was: map<nat, Hash>, stored: nat, wasStored: nat, canon: nat -> Hash)
    requires size > 0
  {
    forall i: nat {:trigger Slot(was, i)} | i < wasStored :: i < stored <==> Slot(was, i) == canon(End(size, i))
  }

  /** The table without the sections from `from` up to `to`. */
  function Cut(heads: map<nat, Hash>, from: nat, to: nat): map<nat, Hash> {
    map i: nat | i in heads && !(from <= i < to) :: heads[i]
  }

  /** In a linked index the last numbers of the sections fit 64 bits. */
  lemma EndIsLast(hs: Headers, size: nat, heads: map<nat, Hash>, stored: nat, i: nat)
    requires size > 0 && HashLinked(hs, size, heads, stored) && i < stored && hs.number(heads[i]) < U64
    ensures End(size, i) == Last(size, i)
  {
    assert Section(hs, size, i, Before(heads, i), heads[i]);
  }

  lemma ExactlyCanonical(hs: Headers, size: nat, was: map<nat, Hash>, stored: nat, wasStored: nat, canon: nat -> Hash)
    requires size > 0 && HashLinked(hs, size, was, wasStored) && Canonical(hs, canon) && stored <= wasStored
    requires forall h: Hash :: hs.number(h) < U64
    requires Dropped(size, was, stored, wasStored, canon)
    requires stored > 0 ==> Slot(was, stored - 1) == canon(End(size, stored - 1))
    ensures KeptIfCanonical(size, was, stored, wasStored, canon)
  {
    forall i: nat | i < stored
      ensures Slot(was, i) == canon(End(size, i))
    {
      EndIsLast(hs, size, was, wasStored, i);
      EndIsLast(hs, size, was, wasStored, stored - 1);
      AllCanonical(hs, size, was, wasStored, canon, stored - 1, i);
    }
  }

  /** When falling back along the chain mends an index: no head lies above the count, and every counted
      section above the linked ones differs from the chain. */
  ghost predicate Mendable(hs: Headers, size: nat, heads: map<nat, Hash>, stored: nat, canon: nat -> Hash)
    requires size > 0
  {
    && CountedOnly(heads, stored)
    && exists p: nat | p <= stored :: LinkedUpTo(hs, size, heads, p) && Dropped(size, heads, p, stored, canon)
  }

  lemma Mends(hs: Headers, size: nat, was: map<nat, Hash>, stored: nat, wasStored: nat, canon: nat -> Hash)
    requires size > 0 && stored <= wasStored && Dropped(size, was, stored, wasStored, canon)
    requires stored > 0 ==> Slot(was, stored - 1) == canon(End(size, stored - 1))
    ensures HashLinked(hs, size, Cut(was, stored, wasStored), stored) <==> Mendable(hs, size, was, wasStored, canon)
  {
    var heads := Cut(was, stored, wasStored);
    if HashLinked(hs, size, heads, stored) {
      forall i: nat | i in was
        ensures i < wasStored
      {
        assert i >= wasStored ==> i in heads;
      }
      forall i: nat | i < stored
        ensures i in was && was[i] == heads[i]
      {
        assert i in heads;
      }
      SameUpTo(hs, size, heads, was, stored);
    }
    if Mendable(hs, size, was, wasStored, canon) {
      var p: nat :| p <= wasStored && LinkedUpTo(hs, size, was, p) && Dropped(size, was, p, wasStored, canon);
      assert stored <= p;
      SameUpTo(hs, size, was, heads, stored);
    }
  }

  /** The chain is known at the ends of the lowest sections. */
  ghost predicate Known(size: nat, canon: nat -> Hash, sections: nat)
    requires size > 0
  {
    forall i: nat {:trigger End(size, i)} | i < sections :: canon(End(size, i)) != ZERO_HASH
  }

  /** A count without heads is mended exactly when the chain is known at the ends of all its sections: an
      unknown block looks like a lost head. */
  lemma EmptyMends(hs: Headers, size: nat, stored: nat, canon: nat -> Hash)
    requires size > 0
    ensures Mendable(hs, size, map[], stored, canon) <==> Known(size, canon, stored)
  {
    var none: map<nat, Hash> := map[];
    forall i: nat
      ensures Slot(none, i) == ZERO_HASH
    {
    }
    if Mendable(hs, size, none, stored, canon) {
      var p: nat :| p <= stored && LinkedUpTo(hs, size, none, p) && Dropped(size, none, p, stored, canon);
      assert p > 0 ==> 0 in none;
      forall i: nat | i < stored
        ensures canon(End(size, i)) != ZERO_HASH
      {
        assert Slot(none, i) == ZERO_HASH;
      }
    } else {
      assert LinkedUpTo(hs, size, none, 0);
      assert !Dropped(size, none, 0, stored, canon);
    }
  }
}
