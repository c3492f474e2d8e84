/** Reference counting of recent state tries: every written block holds a reference to its root until
    the chain has grown far enough past it. */
module TrieGc {
  import opened Sequences

  type Root = nat

  const TRIES_IN_MEMORY: nat := 128

  datatype Entry = Entry(root: Root, number: nat)

  /** How many queued entries hold a root. */
  ghost function Holds(queue: seq<Entry>, root: Root): nat {
    if queue == [] then 0 else (if queue[0].root == root then 1 else 0) + Holds(queue[1..], root)
  }

  lemma {:induction false} HoldsConcat(a: seq<Entry>, b: seq<Entry>, root: Root)
    ensures Holds(a + b, root) == Holds(a, root) + Holds(b, root)
  {
    if a == [] {
      assert a + b == b;
    } else {
      assert (a + b)[1..] == a[1..] + b;
      HoldsConcat(a[1..], b, root);
    }
  }

  lemma HoldsWithout(queue: seq<Entry>, i: nat, root: Root)
    requires i < |queue|
    ensures Holds(queue, root) == Holds(Without(queue, i), root) + if queue[i].root == root then 1 else 0
  {
    assert queue == queue[..i] + queue[i..];
    HoldsConcat(queue[..i], queue[i..], root);
    HoldsConcat(queue[..i], queue[i + 1..], root);
  }

  lemma EntriesWithout(queue: seq<Entry>, i: nat)
    requires i < |queue|
    ensures multiset(queue) == multiset(Without(queue, i)) + multiset{queue[i]}
  {
    assert queue == queue[..i] + [queue[i]] + queue[i + 1..];
  }

  /** The database holds exactly one reference for every queued entry. */
  ghost predicate Balanced(refs: multiset<Root>, queue: seq<Entry>) {
    forall root: Root {:trigger refs[root]} {:trigger Holds(queue, root)} :: refs[root] == Holds(queue, root)
  }

  lemma BalancedPush(refs: multiset<Root>, queue: seq<Entry>, e: Entry)
    requires Balanced(refs, queue)
    ensures Balanced(refs + multiset{e.root}, queue + [e])
  {
    forall root: Root
      ensures Holds(queue + [e], root) == Holds(queue, root) + if e.root == root then 1 else 0
    {
      HoldsConcat(queue, [e], root);
    }
  }

  lemma BalancedDrop(refs: multiset<Root>, queue: seq<Entry>, i: nat)
    requires Balanced(refs, queue) && i < |queue|
    ensures queue[i].root in refs
    ensures Balanced(refs - multiset{queue[i].root}, Without(queue, i))
  {
    forall root: Root
      ensures Holds(queue, root) == Holds(Without(queue, i), root) + if queue[i].root == root then 1 else 0
    {
      HoldsWithout(queue, i, root);
    }
    assert refs[queue[i].root] > 0;
  }

  /** The entry of the lowest block leaves the queue first. */
  method Pop(queue: seq<Entry>) returns (i: nat)
    requires queue != []
    ensures i < |queue| && forall k | 0 <= k < |queue| :: queue[i].number <= queue[k].number
  {
    i := 0;
    for k := 1 to |queue|
      invariant i < |queue| && forall j | 0 <= j < k :: queue[i].number <= queue[j].number
    {
      if queue[k].number < queue[i].number {
        i := k;
      }
    }
  }

  /** What remains of `before` once everything at or below `chosen` is gone. */
  ghost predicate Above(after: seq<Entry>, before: multiset<Entry>, chosen: int) {
    forall e: Entry :: multiset(after)[e] == if e.number > chosen then before[e] else 0
  }

  /** What is still to be kept of `before` while the low entries are being taken out. */
  ghost predicate Draining(queue: seq<Entry>, before: multiset<Entry>, chosen: int) {
    forall e: Entry {:trigger before[e]} ::
      && multiset(queue)[e] <= before[e]
      && (e.number > chosen ==> multiset(queue)[e] == before[e])
  }

  lemma DrainOne(queue: seq<Entry>, before: multiset<Entry>, chosen: int, i: nat)
    requires Draining(queue, before, chosen) && i < |queue| && queue[i].number <= chosen
    ensures Draining(Without(queue, i), before, chosen)
  {
    EntriesWithout(queue, i);
  }

  lemma Drained(queue: seq<Entry>, before: multiset<Entry>, chosen: int)
    requires Draining(queue, before, chosen) && forall k | 0 <= k < |queue| :: queue[k].number > chosen
    ensures Above(queue, before, chosen)
  {
    forall e: Entry
      ensures multiset(queue)[e] == if e.number > chosen then before[e] else 0
    {
      assert multiset(queue)[e] <= before[e];
      if e in multiset(queue) {
        assert e in queue;
      }
    }
  }

  class Collector {
    var queue: seq<Entry>
    var refs: multiset<Root>

    ghost predicate Valid()
      reads this
    {
      Balanced(refs, queue)
    }

    constructor ()
      ensures Valid() && queue == [] && refs == multiset{}
    {
      queue, refs := [], multiset{};
    }

    /** Takes out the entry at `i` together with its reference, which is always there. */
    method Dereference(i: nat)
      requires Valid() && i < |queue|
      modifies this
      ensures Valid() && queue == Without(old(queue), i)
    {
      BalancedDrop(refs, queue, i);
      refs := refs - multiset{queue[i].root};
      queue := Without(queue, i);
    }

    /** A block is written, on whatever fork: its root is referenced and queued, and the entries at
        or below its height less the retention, and no others, lose theirs. */
    method WriteBlock(root: Root, number: nat)
      requires Valid()
      modifies this
      ensures Valid()
      ensures Above(queue, multiset(old(queue)) + multiset{Entry(root, number)}, if number <= 128 then -1 else number - 128)
    {
      ghost var before := multiset(queue) + multiset{Entry(root, number)};
      BalancedPush(refs, queue, Entry(root, number));
      refs := refs + multiset{root};
      queue := queue + [Entry(root, number)];
      assert Draining(queue, before, -1);
      if number <= TRIES_IN_MEMORY {
        Drained(queue, before, -1);
        return;
      }
      var chosen := number - TRIES_IN_MEMORY;
      while queue != []
        invariant Valid() && Draining(queue, before, chosen)
        decreases |queue|
      {
        var i := Pop(queue);
        if queue[i].number > chosen {
          break;
        }
        DrainOne(queue, before, chosen, i);
        Dereference(i);
      }
      Drained(queue, before, chosen);
    }

    /** Shutdown gives every reference back. */
    method Stop()
      requires Valid()
      modifies this
      ensures Valid() && queue == [] && refs == multiset{}
    {
      while queue != []
        invariant Valid()
        decreases |queue|
      {
        var i := Pop(queue);
        Dereference(i);
      }
      assert forall root: Root :: refs[root] == 0;
    }
  }
}
