/** The event feed: one-to-many delivery over channels, with subscriptions coming and going while a
    send is under way. */
module Feeds {
  import opened Options
  import opened Sequences

  type Chan = nat
  type Value = int

  /** A select case. The first case of the send list receives removals. */
  datatype Case = Case(chan: Chan, send: Option<Value>)

  const REMOVE_SUB: Chan := 0
  const FIRST_SUB := 1

  // ---- Case lists ----

  /** How often a channel is listed. */
  function Count(cs: seq<Case>, c: Chan): nat {
    if cs == [] then 0 else One(cs[0], c) + Count(cs[1..], c)
  }

  function One(x: Case, c: Chan): nat {
    if x.chan == c then 1 else 0
  }

  lemma {:induction false} CountConcat(a: seq<Case>, b: seq<Case>, c: Chan)
    ensures Count(a + b, c) == Count(a, c) + Count(b, c)
  {
    if a == [] {
      assert a + b == b;
    } else {
      assert (a + b)[1..] == a[1..] + b;
      CountConcat(a[1..], b, c);
    }
  }

  lemma CountAt(cs: seq<Case>, i: nat, c: Chan)
    requires i < |cs|
    ensures Count(cs, c) == Count(cs[..i], c) + One(cs[i], c) + Count(cs[i + 1..], c)
  {
    assert cs == cs[..i] + cs[i..];
    CountConcat(cs[..i], cs[i..], c);
  }

  lemma {:induction false} CountNone(cs: seq<Case>, c: Chan)
    ensures Count(cs, c) == 0 <==> forall i | 0 <= i < |cs| :: cs[i].chan != c
  {
    if cs != [] {
      CountNone(cs[1..], c);
      if Count(cs, c) == 0 {
        forall i | 0 <= i < |cs| ensures cs[i].chan != c {
          if i > 0 {
            assert cs[i] == cs[1..][i - 1];
          }
        }
      }
    }
  }

  function Swapped(cs: seq<Case>, i: nat, j: nat): seq<Case>
    requires i < |cs| && j < |cs|
  {
    cs[i := cs[j]][j := cs[i]]
  }

  lemma CountWithout(cs: seq<Case>, from: nat, i: nat, c: Chan)
    requires from <= i < |cs|
    ensures Count(cs[from..], c) == Count(Without(cs, i)[from..], c) + One(cs[i], c)
  {
    var tail, k := cs[from..], i - from;
    assert Without(cs, i)[from..] == tail[..k] + tail[k + 1..];
    CountAt(tail, k, c);
    CountConcat(tail[..k], tail[k + 1..], c);
  }

  lemma WithoutBoth(cs: seq<Case>, i: nat, j: nat)
    requires i < j < |cs|
    ensures Without(Without(cs, j), i) == Without(Without(Swapped(cs, i, j), j), i)
  {
  }

  lemma CountSwapped(cs: seq<Case>, from: nat, i: nat, j: nat, c: Chan)
    requires from <= i <= j < |cs|
    ensures Count(Swapped(cs, i, j)[from..], c) == Count(cs[from..], c)
  {
    var ds := Swapped(cs, i, j);
    if i < j {
      CountWithout(cs, from, j, c);
      CountWithout(ds, from, j, c);
      CountWithout(Without(cs, j), from, i, c);
      CountWithout(Without(ds, j), from, i, c);
      WithoutBoth(cs, i, j);
    } else {
      assert ds == cs;
    }
  }

  lemma CountFirst(cs: seq<Case>, i: nat, c: Chan)
    requires i < |cs|
    ensures Count(cs[i..], c) == One(cs[i], c) + Count(cs[i + 1..], c)
  {
    assert cs[i..][1..] == cs[i + 1..];
  }

  /** The index of the first case with the given channel, -1 if there is none. */
  method Find(a: array<Case>, n: nat, c: Chan) returns (index: int)
    requires n <= a.Length
    ensures -1 <= index < n
    ensures index == -1 <==> Count(a[..n], c) == 0
    ensures index >= 0 ==> a[index].chan == c && forall k | 0 <= k < index :: a[k].chan != c
  {
    CountNone(a[..n], c);
    index := 0;
    while index < n
      invariant 0 <= index <= n
      invariant forall k | 0 <= k < index :: a[k].chan != c
    {
      if a[index].chan == c {
        assert a[..n][index].chan == c;
        return;
      }
      index := index + 1;
    }
    index := -1;
  }

  /** Shifts the cases above `index` down by one. */
  method Delete(a: array<Case>, n: nat, index: nat)
    requires index < n <= a.Length
    modifies a
    ensures a[..n - 1] == Without(old(a[..n]), index)
  {
    var k := index;
    while k < n - 1
      invariant index <= k <= n - 1
      invariant forall i | 0 <= i < n :: a[i] == old(a[if index <= i < k then i + 1 else i])
    {
      a[k] := a[k + 1];
      k := k + 1;
    }
  }

  method Append(a: array<Case>, n: nat, more: seq<Case>) returns (b: array<Case>)
    requires n <= a.Length
    ensures fresh(b) && b.Length == n + |more| && b[..b.Length] == a[..n] + more
  {
    b := new Case[n + |more|](i requires 0 <= i < n + |more| && n <= a.Length reads a => if i < n then a[i] else more[i - n]);
  }

  /** Moves the case at `index` just beyond the shortened list. */
  method Deactivate(a: array<Case>, ghost n: nat, active: nat, index: nat)
    requires index < active <= n <= a.Length
    modifies a
    ensures a[..n] == Swapped(old(a[..n]), index, active - 1)
  {
    var last := active - 1;
    a[index], a[last] := a[last], a[index];
  }

  // ---- One send ----

  /** How often a channel was handed a value. */
  function Got(log: seq<(Chan, Value)>, c: Chan): nat {
    if log == [] then 0 else
    var n := |log| - 1;
    Got(log[..n], c) + if log[n].0 == c then 1 else 0
  }

  /** The history of a send: what it set out to serve, the values handed out, and the removals that
      came before (`dropped`) and after (`served`) the channel's turn. */
  datatype Progress = Progress(merged: seq<Case>, log: seq<(Chan, Value)>, dropped: multiset<Chan>, served: multiset<Chan>)

  /** The history accounts for every listing of one channel. */
  ghost predicate Balanced(cs: seq<Case>, active: nat, p: Progress, c: Chan)
    requires FIRST_SUB <= active <= |cs|
  {
    && Count(p.merged, c) == Count(cs[FIRST_SUB..], c) + p.dropped[c] + p.served[c]
    && Got(p.log, c) == Count(cs[active..], c) + p.served[c]
  }

  /** A send of `value` under way: `cs[1..active]` still wait for it, `cs[active..]` have it. */
  ghost predicate Sending(cs: seq<Case>, active: nat, value: Value, p: Progress) {
    && FIRST_SUB <= active <= |cs|
    && (forall i | FIRST_SUB <= i < |cs| :: cs[i].send == Some(value))
    && (forall i | 0 <= i < |p.log| :: p.log[i].1 == value)
    && (forall c: Chan :: Balanced(cs, active, p, c))
  }

  /** Between two points of a send, every removal taken is in the history. */
  ghost predicate Took(before: multiset<Chan>, p: Progress, after: multiset<Chan>, q: Progress) {
    forall c: Chan {:trigger after[c]} :: after[c] + p.dropped[c] + p.served[c] == before[c] + q.dropped[c] + q.served[c]
  }

  lemma DeliverCounts(cs: seq<Case>, active: nat, value: Value, p: Progress, i: nat, c: Chan)
    requires FIRST_SUB <= i < active <= |cs| && Balanced(cs, active, p, c)
    ensures Balanced(Swapped(cs, i, active - 1), active - 1, p.(log := p.log + [(cs[i].chan, value)]), c)
  {
    var ds, more := Swapped(cs, i, active - 1), p.log + [(cs[i].chan, value)];
    assert more[..|p.log|] == p.log;
    CountSwapped(cs, FIRST_SUB, i, active - 1, c);
    CountFirst(ds, active - 1, c);
    assert ds[active..] == cs[active..];
  }

  /** Handing the value to one waiting case and moving it behind the waiting ones. */
  lemma Deliver(cs: seq<Case>, active: nat, value: Value, p: Progress, i: nat)
    requires Sending(cs, active, value, p) && FIRST_SUB <= i < active
    ensures Sending(Swapped(cs, i, active - 1), active - 1, value, p.(log := p.log + [(cs[i].chan, value)]))
  {
    var ds, left, q := Swapped(cs, i, active - 1), active - 1, p.(log := p.log + [(cs[i].chan, value)]);
    forall c: Chan
      ensures Balanced(ds, left, q, c)
    {
      DeliverCounts(cs, active, value, p, i, c);
    }
  }

  function Removed(p: Progress, c: Chan, early: bool): Progress {
    if early then p.(dropped := p.dropped + multiset{c}) else p.(served := p.served + multiset{c})
  }

  lemma TakeOutCounts(cs: seq<Case>, active: nat, p: Progress, i: nat, c: Chan)
    requires FIRST_SUB <= i < |cs| && FIRST_SUB <= active <= |cs| && Balanced(cs, active, p, c)
    ensures Balanced(Without(cs, i), if i < active then active - 1 else active, Removed(p, cs[i].chan, i < active), c)
  {
    CountWithout(cs, FIRST_SUB, i, c);
    if i < active {
      assert Without(cs, i)[active - 1..] == cs[active..];
    } else {
      CountWithout(cs, active, i, c);
    }
  }

  /** Taking one case out, before or after its turn. */
  lemma TakeOut(cs: seq<Case>, active: nat, value: Value, p: Progress, i: nat)
    requires Sending(cs, active, value, p) && FIRST_SUB <= i < |cs|
    ensures Sending(Without(cs, i), if i < active then active - 1 else active, value, Removed(p, cs[i].chan, i < active))
  {
    var ds, left, q := Without(cs, i), if i < active then active - 1 else active, Removed(p, cs[i].chan, i < active);
    forall c: Chan
      ensures Balanced(ds, left, q, c)
    {
      TakeOutCounts(cs, active, p, i, c);
    }
  }

  /** When nobody waits any more, every merged case that was not removed before its turn has been
      served, as many times as it was listed. */
  lemma AllServed(cs: seq<Case>, value: Value, p: Progress, c: Chan)
    requires Sending(cs, FIRST_SUB, value, p)
    ensures Got(p.log, c) + p.dropped[c] == Count(p.merged, c)
  {
    assert Balanced(cs, FIRST_SUB, p, c);
  }

  // ---- Subscriptions ----

  /** One channel's listings belong to live subscriptions or to pending removals, and a pending
      removal has its case in the send list. */
  ghost predicate Owned(cs: seq<Case>, inbox: seq<Case>, live: multiset<Chan>, waiting: multiset<Chan>, c: Chan)
    requires |cs| >= FIRST_SUB
  {
    && Count(cs[FIRST_SUB..], c) + Count(inbox, c) == live[c] + waiting[c]
    && waiting[c] <= Count(cs[FIRST_SUB..], c)
  }

  /** Every channel is accounted for; it may be listed repeatedly. */
  ghost predicate Accounted(cs: seq<Case>, inbox: seq<Case>, live: multiset<Chan>, waiting: multiset<Chan>) {
    && |cs| >= FIRST_SUB && cs[0].chan == REMOVE_SUB
    && live[REMOVE_SUB] == waiting[REMOVE_SUB] == 0
    && (forall i | 0 <= i < |inbox| :: inbox[i].send == None)
    && (forall c: Chan :: Owned(cs, inbox, live, waiting, c))
  }

  lemma Subscribed(cs: seq<Case>, inbox: seq<Case>, live: multiset<Chan>, waiting: multiset<Chan>, c: Chan)
    requires Accounted(cs, inbox, live, waiting) && c != REMOVE_SUB
    ensures Accounted(cs, inbox + [Case(c, None)], live + multiset{c}, waiting)
  {
    forall d: Chan
      ensures Owned(cs, inbox + [Case(c, None)], live + multiset{c}, waiting, d)
    {
      assert Owned(cs, inbox, live, waiting, d);
      CountConcat(inbox, [Case(c, None)], d);
    }
  }

  lemma LeftInbox(cs: seq<Case>, inbox: seq<Case>, live: multiset<Chan>, waiting: multiset<Chan>, i: nat)
    requires Accounted(cs, inbox, live, waiting) && i < |inbox| && inbox[i].chan in live
    ensures Accounted(cs, Without(inbox, i), live - multiset{inbox[i].chan}, waiting)
  {
    var box := Without(inbox, i);
    assert inbox[0..] == inbox && box[0..] == box;
    forall d: Chan
      ensures Owned(cs, box, live - multiset{inbox[i].chan}, waiting, d)
    {
      assert Owned(cs, inbox, live, waiting, d);
      CountWithout(inbox, 0, i, d);
    }
  }

  lemma StartedWaiting(cs: seq<Case>, inbox: seq<Case>, live: multiset<Chan>, waiting: multiset<Chan>, c: Chan)
    requires Accounted(cs, inbox, live, waiting) && c in live && Count(inbox, c) == 0
    ensures Accounted(cs, inbox, live - multiset{c}, waiting + multiset{c})
  {
    forall d: Chan
      ensures Owned(cs, inbox, live - multiset{c}, waiting + multiset{c}, d)
    {
      assert Owned(cs, inbox, live, waiting, d);
    }
  }

  lemma LeftSendList(cs: seq<Case>, inbox: seq<Case>, live: multiset<Chan>, waiting: multiset<Chan>, i: nat)
    requires FIRST_SUB <= i < |cs| && Accounted(cs, inbox, live, waiting) && cs[i].chan in waiting
    ensures Accounted(Without(cs, i), inbox, live, waiting - multiset{cs[i].chan})
  {
    forall d: Chan
      ensures Owned(Without(cs, i), inbox, live, waiting - multiset{cs[i].chan}, d)
    {
      assert Owned(cs, inbox, live, waiting, d);
      CountWithout(cs, FIRST_SUB, i, d);
    }
  }

  /** A pending removal finds its case, and not at the removal case itself. */
  lemma PendingIsListed(cs: seq<Case>, inbox: seq<Case>, live: multiset<Chan>, waiting: multiset<Chan>, c: Chan)
    requires Accounted(cs, inbox, live, waiting) && c in waiting
    ensures Count(cs, c) > 0 && c != REMOVE_SUB
  {
    assert Owned(cs, inbox, live, waiting, c);
  }

  lemma {:induction false} CountSameChans(a: seq<Case>, b: seq<Case>, c: Chan)
    requires |a| == |b| && forall i | 0 <= i < |a| :: a[i].chan == b[i].chan
    ensures Count(a, c) == Count(b, c)
  {
    if a != [] {
      CountSameChans(a[1..], b[1..], c);
    }
  }

  function SetSend(cs: seq<Case>, v: Option<Value>): seq<Case> {
    seq(|cs|, i requires 0 <= i < |cs| => if i < FIRST_SUB then cs[i] else Case(cs[i].chan, v))
  }

  lemma SetSendCount(cs: seq<Case>, v: Option<Value>, c: Chan)
    requires |cs| >= FIRST_SUB
    ensures Count(SetSend(cs, v)[FIRST_SUB..], c) == Count(cs[FIRST_SUB..], c)
  {
    CountSameChans(SetSend(cs, v)[FIRST_SUB..], cs[FIRST_SUB..], c);
  }

  /** Setting or clearing the value on every case leaves the accounts alone. */
  lemma AccountedSet(cs: seq<Case>, v: Option<Value>, inbox: seq<Case>, live: multiset<Chan>, waiting: multiset<Chan>)
    requires Accounted(cs, inbox, live, waiting)
    ensures Accounted(SetSend(cs, v), inbox, live, waiting)
  {
    forall c: Chan
      ensures Owned(SetSend(cs, v), inbox, live, waiting, c)
    {
      assert Owned(cs, inbox, live, waiting, c);
      SetSendCount(cs, v, c);
    }
  }

  lemma AccountedMerge(cs: seq<Case>, inbox: seq<Case>, live: multiset<Chan>, waiting: multiset<Chan>)
    requires Accounted(cs, inbox, live, waiting)
    ensures Accounted(cs + inbox, [], live, waiting)
  {
    assert (cs + inbox)[FIRST_SUB..] == cs[FIRST_SUB..] + inbox;
    forall c: Chan
      ensures Owned(cs + inbox, [], live, waiting, c)
    {
      assert Owned(cs, inbox, live, waiting, c);
      CountConcat(cs[FIRST_SUB..], inbox, c);
    }
  }

  lemma AccountedSwap(cs: seq<Case>, i: nat, j: nat, inbox: seq<Case>, live: multiset<Chan>, waiting: multiset<Chan>)
    requires Accounted(cs, inbox, live, waiting) && FIRST_SUB <= i <= j < |cs|
    ensures Accounted(Swapped(cs, i, j), inbox, live, waiting)
  {
    forall c: Chan
      ensures Owned(Swapped(cs, i, j), inbox, live, waiting, c)
    {
      assert Owned(cs, inbox, live, waiting, c);
      CountSwapped(cs, FIRST_SUB, i, j, c);
    }
  }

  lemma StartSending(cs: seq<Case>, value: Value)
    requires |cs| >= FIRST_SUB
    ensures Sending(SetSend(cs, Some(value)), |cs|, value, Progress(cs[FIRST_SUB..], [], multiset{}, multiset{}))
  {
    var ds := SetSend(cs, Some(value));
    assert ds[|cs|..] == [];
    forall c: Chan
      ensures Balanced(ds, |cs|, Progress(cs[FIRST_SUB..], [], multiset{}, multiset{}), c)
    {
      SetSendCount(cs, Some(value), c);
    }
  }

  lemma MergeStarts(cs: seq<Case>, inbox: seq<Case>, live: multiset<Chan>, waiting: multiset<Chan>, value: Value)
    requires Accounted(cs, inbox, live, waiting)
    ensures var ds := SetSend(cs + inbox, Some(value));
            && Accounted(ds, [], live, waiting)
            && Sending(ds, |ds|, value, Progress(cs[FIRST_SUB..] + inbox, [], multiset{}, multiset{}))
  {
    AccountedMerge(cs, inbox, live, waiting);
    AccountedSet(cs + inbox, Some(value), [], live, waiting);
    StartSending(cs + inbox, value);
    assert (cs + inbox)[FIRST_SUB..] == cs[FIRST_SUB..] + inbox;
  }

  /** Sets the value to send on every case but the first. */
  method SetAll(a: array<Case>, n: nat, v: Option<Value>)
    requires FIRST_SUB <= n <= a.Length
    modifies a
    ensures a[..n] == SetSend(old(a[..n]), v)
  {
    for i := FIRST_SUB to n
      invariant forall k | 0 <= k < n :: a[k] == if FIRST_SUB <= k < i then Case(old(a[k]).chan, v) else old(a[k])
    {
      a[i] := Case(a[i].chan, v);
    }
  }

  // ---- The feed ----

  class Feed {
    var sendCases: array<Case>
    var size: nat
    var inbox: seq<Case>
    var locked: bool
    // Subscriptions not yet cancelled, and goroutines blocked in remove, by channel.
    var live: multiset<Chan>
    var waiting: multiset<Chan>
    // Removals taken from `waiting`, over the whole life of the feed.
    ghost var taken: multiset<Chan>

    ghost predicate Valid()
      reads this, sendCases
    {
      && size <= sendCases.Length
      && Accounted(sendCases[..size], inbox, live, waiting)
    }

    constructor ()
      ensures Valid() && !locked && fresh(sendCases) && live == waiting == multiset{} && inbox == []
    {
      sendCases := new Case[1](_ => Case(REMOVE_SUB, None));
      size, inbox, locked := 1, [], false;
      live, waiting, taken := multiset{}, multiset{}, multiset{};
    }

    method Subscribe(c: Chan)
      requires Valid() && c != REMOVE_SUB
      modifies `inbox, `live
      ensures Valid() && inbox == old(inbox) + [Case(c, None)] && live == old(live) + multiset{c}
    {
      Subscribed(sendCases[..size], inbox, live, waiting, c);
      inbox := inbox + [Case(c, None)];
      live := live + multiset{c};
    }

    /** The first half of remove: a case still in the inbox goes at once, otherwise the caller waits
        for a send to take the removal or for the send lock. */
    method BeginRemove(c: Chan) returns (done: bool)
      requires Valid() && c in live
      modifies `inbox, `live, `waiting
      ensures Valid() && live == old(live) - multiset{c}
      ensures done <==> Count(old(inbox), c) > 0
      ensures done ==> waiting == old(waiting) && |inbox| == |old(inbox)| - 1
      ensures !done ==> waiting == old(waiting) + multiset{c} && inbox == old(inbox)
    {
      var box := new Case[|inbox|](i requires 0 <= i < |inbox| reads this => inbox[i]);
      assert box[..box.Length] == inbox;
      var index := Find(box, box.Length, c);
      if index != -1 {
        LeftInbox(sendCases[..size], inbox, live, waiting, index);
        Delete(box, box.Length, index);
        inbox := box[..box.Length - 1];
        done := true;
      } else {
        StartedWaiting(sendCases[..size], inbox, live, waiting, c);
        waiting := waiting + multiset{c};
        done := false;
      }
      live := live - multiset{c};
    }

    /** Deletes a waiting channel from the send list, where it is always found. */
    method DeleteListed(c: Chan) returns (index: nat)
      requires Valid() && c in waiting
      modifies `size, `waiting, `taken, sendCases
      ensures Valid() && waiting == old(waiting) - multiset{c} && taken == old(taken) + multiset{c}
      ensures FIRST_SUB <= index < old(size) && old(sendCases[index]).chan == c
      ensures size == old(size) - 1 && sendCases[..size] == Without(old(sendCases[..size]), index)
    {
      PendingIsListed(sendCases[..size], inbox, live, waiting, c);
      index := Find(sendCases, size, c);
      LeftSendList(sendCases[..size], inbox, live, waiting, index);
      Delete(sendCases, size, index);
      size := size - 1;
      waiting, taken := waiting - multiset{c}, taken + multiset{c};
    }

    /** The second half of remove when no send is in progress. */
    method RemoveIdle(c: Chan)
      requires Valid() && !locked && c in waiting
      modifies `size, `waiting, `taken, sendCases
      ensures Valid() && waiting == old(waiting) - multiset{c} && taken == old(taken) + multiset{c}
      ensures exists i: nat :: FIRST_SUB <= i < old(size) && old(sendCases[i]).chan == c && sendCases[..size] == Without(old(sendCases[..size]), i)
    {
      var _ := DeleteListed(c);
    }

    /** What other goroutines may do while a send holds the lock: subscribe, and begin removals. */
    method Others()
      requires Valid()
      modifies `inbox, `live, `waiting
      ensures Valid() && old(waiting) <= waiting
    {
      var some: int := *;
      for i := 0 to if some < 0 then 0 else some
        invariant Valid() && old(waiting) <= waiting
      {
        var c: Chan, subscribing: bool := *, *;
        if subscribing && c != REMOVE_SUB {
          Subscribe(c);
        } else if c in live {
          var _ := BeginRemove(c);
        }
      }
    }

    /** Takes the lock, moves the inbox to the end of the send list and sets the value on it. */
    method Merge(value: Value) returns (ghost p: Progress)
      requires Valid() && !locked
      modifies this
      ensures Valid() && locked && inbox == [] && fresh(sendCases)
      ensures live == old(live) && waiting == old(waiting) && taken == old(taken)
      ensures p == Progress(old(sendCases[..size])[FIRST_SUB..] + old(inbox), [], multiset{}, multiset{})
      ensures Sending(sendCases[..size], size, value, p)
    {
      locked := true;
      ghost var cs := sendCases[..size];
      MergeStarts(cs, inbox, live, waiting, value);
      p := Progress(cs[FIRST_SUB..] + inbox, [], multiset{}, multiset{});
      sendCases := Append(sendCases, size, inbox);
      size, inbox := size + |inbox|, [];
      SetAll(sendCases, size, Some(value));
    }

    /** Hands the value to the waiting case at `i`. */
    method Hand(value: Value, active: nat, i: nat, ghost p: Progress) returns (ghost q: Progress)
      requires Valid() && Sending(sendCases[..size], active, value, p) && FIRST_SUB <= i < active
      modifies sendCases
      ensures Valid() && Sending(sendCases[..size], active - 1, value, q)
      ensures q == p.(log := p.log + [(old(sendCases[i]).chan, value)])
    {
      Deliver(sendCases[..size], active, value, p, i);
      AccountedSwap(sendCases[..size], i, active - 1, inbox, live, waiting);
      q := p.(log := p.log + [(sendCases[i].chan, value)]);
      Deactivate(sendCases, size, active, i);
    }

    /** Tries every waiting case once without blocking. */
    method TryAll(value: Value, active: nat, ghost p: Progress) returns (left: nat, sent: nat, ghost q: Progress)
      requires Valid() && Sending(sendCases[..size], active, value, p)
      modifies `inbox, `live, `waiting, sendCases
      ensures Valid() && Sending(sendCases[..size], left, value, q) && left <= active
      ensures q.merged == p.merged && |q.log| == |p.log| + sent && q.dropped == p.dropped && q.served == p.served
    {
      left, sent, q := active, 0, p;
      var i := FIRST_SUB;
      while i < left
        invariant Valid() && FIRST_SUB <= i <= left <= active && Sending(sendCases[..size], left, value, q)
        invariant q.merged == p.merged && |q.log| == |p.log| + sent && q.dropped == p.dropped && q.served == p.served
        decreases left - i
      {
        Others();
        var ready: bool := *;
        if ready {
          q := Hand(value, left, i, q);
          left, sent := left - 1, sent + 1;
        } else {
          i := i + 1;
        }
      }
    }

    /** Serves a pending removal: the case goes, and the waiting part shrinks if it was there. */
    method TakeRemoval(value: Value, active: nat, c: Chan, ghost p: Progress) returns (left: nat, ghost q: Progress)
      requires Valid() && Sending(sendCases[..size], active, value, p) && c in waiting
      modifies `size, `waiting, `taken, sendCases
      ensures Valid() && taken == old(taken) + multiset{c} && Sending(sendCases[..size], left, value, q) && size == old(size) - 1 && left <= active
      ensures q == Removed(p, c, left < active)
    {
      ghost var cs := sendCases[..size];
      var index := DeleteListed(c);
      TakeOut(cs, active, value, p, index);
      left, q := if index < active then active - 1 else active, Removed(p, c, index < active);
    }

    /** Blocks until a removal arrives or one of the waiting cases can be served. */
    method Select(value: Value, active: nat, ghost p: Progress) returns (left: nat, sent: nat, ghost q: Progress)
      requires Valid() && Sending(sendCases[..size], active, value, p) && FIRST_SUB < active
      modifies `size, `inbox, `live, `waiting, `taken, sendCases
      ensures Valid() && Sending(sendCases[..size], left, value, q) && size + left < old(size) + active
      ensures q.merged == p.merged && |q.log| == |p.log| + sent
      ensures Took(old(taken), p, taken, q)
    {
      Others();
      var chosen: int := *;
      if chosen == 0 && waiting != multiset{} {
        var c :| c in waiting;
        left, q := TakeRemoval(value, active, c, p);
        sent := 0;
      } else {
        chosen := if FIRST_SUB <= chosen < active then chosen else FIRST_SUB;
        q := Hand(value, active, chosen, p);
        left, sent := active - 1, 1;
      }
    }

    /** Sends `value` to everyone listed. Each channel receives it exactly as often as it was listed
        when the inbox was merged, less the removals that came before its turn. */
    method Send(value: Value) returns (nsent: nat, ghost p: Progress)
      requires Valid() && !locked
      modifies this, sendCases
      ensures Valid() && !locked
      ensures p.merged == old(sendCases[..size])[FIRST_SUB..] + old(inbox)
      ensures nsent == |p.log| && forall i | 0 <= i < nsent :: p.log[i].1 == value
      ensures forall c: Chan :: Got(p.log, c) + p.dropped[c] == Count(p.merged, c)
      ensures forall c: Chan :: taken[c] == old(taken)[c] + p.dropped[c] + p.served[c]
    {
      nsent := 0;
      p := Merge(value);
      var active, sent := size, 0;
      while true
        invariant Valid() && locked && fresh(sendCases) && Sending(sendCases[..size], active, value, p)
        invariant p.merged == old(sendCases[..size])[FIRST_SUB..] + old(inbox) && nsent == |p.log|
        invariant Took(old(taken), Progress([], [], multiset{}, multiset{}), taken, p)
        decreases size + active
      {
        active, sent, p := TryAll(value, active, p);
        nsent := nsent + sent;
        if active == FIRST_SUB {
          break;
        }
        active, sent, p := Select(value, active, p);
        nsent := nsent + sent;
      }
      forall c: Chan
        ensures Got(p.log, c) + p.dropped[c] == Count(p.merged, c)
      {
        AllServed(sendCases[..size], value, p, c);
      }
      AccountedSet(sendCases[..size], None, inbox, live, waiting);
      SetAll(sendCases, size, None);
      locked := false;
    }
  }

  /** With channels listed once, a channel that nobody removes receives the value exactly once, and
      none receives it twice. */
  lemma ExactlyOnce(p: Progress, c: Chan)
    requires forall d: Chan :: Got(p.log, d) + p.dropped[d] == Count(p.merged, d)
    requires forall i, j | 0 <= i < j < |p.merged| :: p.merged[i].chan != p.merged[j].chan
    ensures Got(p.log, c) <= 1
    ensures c !in p.dropped ==> (Got(p.log, c) == 1 <==> exists i :: 0 <= i < |p.merged| && p.merged[i].chan == c)
  {
    CountNone(p.merged, c);
    if i :| 0 <= i < |p.merged| && p.merged[i].chan == c {
      CountAt(p.merged, i, c);
      CountNone(p.merged[..i], c);
      CountNone(p.merged[i + 1..], c);
    }
  }
}
