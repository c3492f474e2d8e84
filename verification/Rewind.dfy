/** Rewinding: the searches, going back from a block, for one whose state is available and
    which lies beyond a requested state root. */
module Rewinding {
  import opened Options
  import opened BlockTree

  // Without a pivot, a hash-scheme search gives up this many blocks below its start.
  const FULL_IMMUTABILITY_THRESHOLD: nat := 90000

  /** `NilHeader` is the dereference of a missing parent that stops the node; `NotRecovered`
      the failed state recovery that stops it. */
  datatype Found = At(head: Block, rootNumber: nat) | NilHeader | NotRecovered

  /** A search through the ancestors of `start`. A block's state is good enough to stop at
      when it is `usable`; `skip` gives up on the root at the first block in `states`. */
  datatype Search = Search(s: Store, genesis: Block, start: Block, root: Hash, states: set<Hash>, usable: set<Hash>, skip: bool) {

    ghost function Step(k: nat): (r: Option<Block>)
      ensures r.Some? ==> r.value.number + k == start.number
    {
      Ancestor(s, start, k)
    }

    ghost predicate HasRoot(k: nat) {
      Step(k).Some? && Step(k).value.root == root
    }

    /** By the `k`th step the root was met, or need not be. */
    ghost predicate Crossed(k: nat) {
      || root == ZERO_HASH
      || (exists j: nat | j <= k :: HasRoot(j))
      || (skip && exists j: nat | j <= k :: Step(j).Some? && Step(j).value.root in states)
    }

    ghost predicate Suitable(k: nat) {
      Step(k).Some? && Step(k).value.root in usable && Crossed(k)
    }

    /** A reported root number is the height of the first block with that root, at or above `head`. */
    ghost predicate RootReported(head: Block, rootNumber: nat) {
      rootNumber != 0 ==>
        && root != ZERO_HASH && head.number <= rootNumber <= start.number
        && HasRoot(start.number - rootNumber)
        && forall j: nat | j < start.number - rootNumber :: !HasRoot(j)
    }

    /** What the search answers: the highest suitable block from the start down to `floor`; or, when there is
        none, a block at height zero. */
    ghost predicate Answer(floor: nat, head: Block, rootNumber: nat) {
      && Stored(s, head) && head.number <= start.number && RootReported(head, rootNumber)
      && (head.number > 0 ==>
            var k := start.number - head.number;
            && head.number >= floor && Suitable(k) && Step(k) == Some(head) && (root != ZERO_HASH && !skip ==> rootNumber != 0)
            && forall j: nat | j < k :: !Suitable(j))
      && (head.number == 0 ==>
            && (head == genesis || Step(start.number) == Some(head))
            && forall j: nat | j < start.number && start.number - j >= floor :: !Suitable(j))
    }

    /** The walk ends above height zero at a block with state, before the root was crossed. */
    ghost predicate DeadEnd(floor: nat, k: nat) {
      && Step(k).Some? && Step(k + 1).None?
      && Step(k).value.number > 0 && Step(k).value.number >= floor
      && Step(k).value.root in usable && !Crossed(k)
    }

    /** The search has stepped back `k` blocks without stopping. */
    ghost predicate Searching(k: nat, head: Block, beyondRoot: bool, rootNumber: nat) {
      && Stored(s, head) && Step(k) == Some(head)
      && (beyondRoot <==> if k == 0 then root == ZERO_HASH else Crossed(k - 1))
      && (forall j: nat | j < k :: !Suitable(j))
      && RootReported(head, rootNumber)
      && (beyondRoot && root != ZERO_HASH && !skip ==> rootNumber != 0)
    }

    /** Having looked at the current block, the search knows whether the root is crossed here. */
    lemma LookHere(k: nat, head: Block, was: bool, wasNumber: nat)
      requires Searching(k, head, was, wasNumber)
      ensures var crossed := was || head.root == root || (skip && head.root in states);
              var number := if !was && head.root == root then head.number else wasNumber;
              && (crossed <==> Crossed(k))
              && RootReported(head, number)
              && (head.number > 0 && crossed && root != ZERO_HASH && !skip ==> number != 0)
    {
      assert head.root == root <==> HasRoot(k);
    }

    /** Going on to the parent keeps the search going. */
    lemma GoOn(k: nat, head: Block, beyondRoot: bool, rootNumber: nat)
      requires WellFormed(s) && Stored(s, head) && Step(k) == Some(head) && Parent(s, head).Some?
      requires beyondRoot <==> Crossed(k)
      requires forall j: nat | j < k :: !Suitable(j)
      requires !(beyondRoot && head.root in usable)
      requires RootReported(head, rootNumber) && (beyondRoot && root != ZERO_HASH && !skip ==> rootNumber != 0)
      ensures Searching(k + 1, Parent(s, head).value, beyondRoot, rootNumber)
    {
    }

    lemma DeadEndIsLast(floor: nat, k: nat)
      requires Step(k).Some?
      ensures forall e: nat | DeadEnd(floor, e) :: k <= e
    {
      forall e: nat | DeadEnd(floor, e)
        ensures k <= e
      {
        if e < k {
          AncestorsEnd(s, start, e + 1, k);
        }
      }
    }

    /** Stopping at height zero is right when no suitable block remains down to the floor. */
    lemma StopAtZero(floor: nat, k: nat, head: Block, zero: Block, rootNumber: nat)
      requires Step(k) == Some(head) && Stored(s, zero) && zero.number == 0 && (zero == genesis || zero == head)
      requires forall j: nat | j < k :: !Suitable(j)
      requires RootReported(head, rootNumber)
      requires head.number < floor || head.number == 0 || (!Suitable(k) && (Step(k + 1).None? || head.number <= floor))
      ensures Answer(floor, zero, rootNumber)
    {
      forall j: nat | j < start.number && start.number - j >= floor
        ensures !Suitable(j)
      {
        if k < j && Step(k + 1).None? {
          AncestorsEnd(s, start, k + 1, j);
        }
      }
    }

    /** A walk that stops at a block, below the floor, at height zero or without state, is no crash. */
    lemma NoDeadEnd(floor: nat, k: nat, head: Block)
      requires Step(k) == Some(head)
      requires head.number < floor || head.number == 0 || Suitable(k) || (head.root !in usable && Step(k + 1).None?)
      ensures !exists e: nat :: DeadEnd(floor, e)
    {
      DeadEndIsLast(floor, k);
      forall e: nat
        ensures !DeadEnd(floor, e)
      {
        if k < e && Step(k + 1).None? {
          AncestorsEnd(s, start, k + 1, e);
        }
      }
    }
  }

  function SearchLimit(pivot: Option<nat>, start: Block): nat {
    match pivot
    case Some(p) => p
    case None =>
      if start.number > FULL_IMMUTABILITY_THRESHOLD then start.number - FULL_IMMUTABILITY_THRESHOLD else 0
  }

  /** Hash scheme. The walk crashes exactly on a missing parent below a block whose state is
      available but which still lies above the requested root. */
  method RewindHashHead(s: Store, genesis: Block, states: set<Hash>, pivot: Option<nat>, start: Block, root: Hash)
    returns (r: Found)
    requires WellFormed(s) && Stored(s, start) && Stored(s, genesis) && genesis.number == 0
    ensures var q := Search(s, genesis, start, root, states, states, false);
            var floor := if pivot.Some? then pivot.value else if start.number > 90000 then start.number - 90000 else 0;
            && floor == SearchLimit(pivot, start) && !r.NotRecovered?
            && (r.NilHeader? <==> exists e: nat :: q.DeadEnd(floor, e))
            && (r.At? ==> q.Answer(floor, r.head, r.rootNumber) && (r.head.number > 0 ==> r.head.root in states))
  {
    var limit := SearchLimit(pivot, start);
    var head, beyondRoot, rootNumber := start, root == ZERO_HASH, 0;
    ghost var k: nat, q := 0, Search(s, genesis, start, root, states, states, false);
    while true
      invariant q.Searching(k, head, beyondRoot, rootNumber)
      decreases head.number
    {
      q.LookHere(k, head, beyondRoot, rootNumber);
      if !beyondRoot && head.root == root {
        beyondRoot, rootNumber := true, head.number;
      }
      if head.number < limit {
        q.StopAtZero(limit, k, head, genesis, rootNumber);
        q.NoDeadEnd(limit, k, head);
        return At(genesis, rootNumber);
      }
      var parent := Parent(s, head);
      if head.root !in states {
        if parent.None? {
          q.StopAtZero(limit, k, head, genesis, rootNumber);
          q.NoDeadEnd(limit, k, head);
          return At(genesis, rootNumber);
        }
        q.GoOn(k, head, beyondRoot, rootNumber);
        head, k := parent.value, k + 1;
        if head.number == 0 {
          q.StopAtZero(limit, k, head, head, rootNumber);
          q.NoDeadEnd(limit, k, head);
          return At(head, rootNumber);
        }
      } else {
        if beyondRoot || head.number == 0 {
          if head.number == 0 {
            q.StopAtZero(limit, k, head, head, rootNumber);
          }
          q.NoDeadEnd(limit, k, head);
          return At(head, rootNumber);
        }
        if parent.None? {
          assert q.DeadEnd(limit, k);
          return NilHeader;
        }
        q.GoOn(k, head, beyondRoot, rootNumber);
        head, k := parent.value, k + 1;
      }
    }
  }

  /** The lowest block a path-scheme search looks at: the pivot, or a start below it. */
  ghost function PathFloor(pivot: Option<nat>, start: Block): nat {
    if pivot.None? then 0 else if pivot.value <= start.number then pivot.value else start.number
  }

  /** Path scheme. A state that can be rolled back to is as good as one at hand; a root whose
      own state is out of reach is given up at the first block with state. */
  method RewindPathHead(s: Store, genesis: Block, states: set<Hash>, recoverable: set<Hash>, pivot: Option<nat>,
                        start: Block, root: Hash, recovers: bool)
    returns (r: Found, after: set<Hash>)
    requires WellFormed(s) && Stored(s, start) && Stored(s, genesis) && genesis.number == 0
    ensures var q := Search(s, genesis, start, root, states, states + recoverable, root !in states + recoverable);
            && !r.NilHeader?
            && (r.NotRecovered? ==> !recovers)
            && (r.At? ==>
                  && q.Answer(PathFloor(pivot, start), r.head, r.rootNumber)
                  && states <= after <= states + recoverable && (r.head.number > 0 ==> r.head.root in after))
  {
    var noState := root !in states && root !in recoverable;
    var head, beyondRoot, rootNumber := start, root == ZERO_HASH, 0;
    ghost var floor := PathFloor(pivot, start);
    ghost var k: nat, q := 0, Search(s, genesis, start, root, states, states + recoverable, noState);
    after := states;
    while true
      invariant q.Searching(k, head, beyondRoot, rootNumber) && head.number >= floor
      decreases head.number
    {
      q.LookHere(k, head, beyondRoot, rootNumber);
      if !beyondRoot && head.root == root {
        beyondRoot, rootNumber := true, head.number;
      }
      if !beyondRoot && noState && head.root in states {
        beyondRoot := true;
      }
      if beyondRoot && (head.root in states || head.root in recoverable) {
        break;
      }
      if pivot.Some? && pivot.value >= head.number {
        q.StopAtZero(floor, k, head, genesis, rootNumber);
        return At(genesis, rootNumber), after;
      }
      var parent := Parent(s, head);
      if parent.None? {
        q.StopAtZero(floor, k, head, genesis, rootNumber);
        return At(genesis, rootNumber), after;
      }
      q.GoOn(k, head, beyondRoot, rootNumber);
      head, k := parent.value, k + 1;
      if head.number == 0 {
        q.StopAtZero(floor, k, head, head, rootNumber);
        return At(head, rootNumber), after;
      }
    }
    if head.number == 0 {
      q.StopAtZero(floor, k, head, head, rootNumber);
    }
    if head.root !in states {
      if !recovers {
        return NotRecovered, after;
      }
      after := states + {head.root};
    }
    r := At(head, rootNumber);
  }

  const ORPHAN := Block(3, 2, 2, 12, 2, [], [])

  /** Such a walk: a block with state whose parent is missing, and a root it does not have. */
  lemma MissingParent()
    ensures WellFormed(map[1 := GENESIS, 3 := ORPHAN])
    ensures Search(map[1 := GENESIS, 3 := ORPHAN], GENESIS, ORPHAN, 99, {10, 12}, {10, 12}, false).DeadEnd(SearchLimit(None, ORPHAN), 0)
  {
    var s: Store := map[1 := GENESIS, 3 := ORPHAN];
    assert forall h | h in s :: Linked(s, s[h]);
    var q := Search(s, GENESIS, ORPHAN, 99, {10, 12}, {10, 12}, false);
    assert q.Step(0) == Some(ORPHAN) && Parent(s, ORPHAN).None? && q.Step(1).None?;
  }
}
