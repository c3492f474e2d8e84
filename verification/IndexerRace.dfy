/** A failed backend reset clears the section index without holding the indexer's lock, while other
    goroutines may be anywhere in an operation that does hold it. Every read and every write of the
    section count and of the table is a step of its own here, and steps fall in any order. */
module IndexerRaces {
  import opened Options
  import opened Words
  import opened ContentHashes
  import opened BlockTree
  import opened SectionIndexes

  /** What the goroutines share. */
  datatype Memory = Memory(stored: nat, heads: map<nat, Hash>)

  /** Where a call that sets the count to `k` stands: about to compare the count, to read it for the
      decrement, to write it, to read it for the deletion, to delete, or to set it in the end. */
  datatype Write = Test(k: nat) | Load(k: nat) | Store(k: nat, v: nat) | Aim(k: nat) | Delete(k: nat, i: nat) | Final(k: nat)

  /** Where the goroutine with the lock stands: nowhere, about to compare for a reorg to `k` sections,
      or verifying the last head. Verification compares the count twice, reads it for the lookup,
      looks the head up, reads the count again to compare with the chain, and once more to
      fall back by one section. */
  datatype Locked =
    | Free
    | Compare(k: nat)
    | Guard(again: bool)
    | Seek
    | Fetch(i: nat)
    | Judge(head: Hash)
    | Back
    | Writing(w: Write, verify: bool)

  datatype Reset = Waiting | At(w: Write) | Over

  datatype Race = Race(m: Memory, locked: Locked, reset: Reset)

  /** One step of either side, or a new operation that takes the lock. `canon` is what the chain
      answers at that moment. */
  datatype Step = Reorg(k: nat) | Query | LockedStep(canon: nat -> Hash) | ResetStep

  /** One less, in 64 bits. */
  function Pred(n: nat): nat {
    if n == 0 then U64 - 1 else n - 1
  }

  /** The number of the last block of so many sections, in 64 bits. */
  function Height(size: nat, count: nat): nat {
    (count * size - 1) % U64
  }

  function Written(m: Memory, w: Write): Memory {
    match w
    case Store(_, v) => m.(stored := v)
    case Delete(_, i) => m.(heads := m.heads - {i})
    case Final(k) => m.(stored := k)
    case _ => m
  }

  function Then(m: Memory, w: Write): Option<Write> {
    match w
    case Test(k) => Some(if m.stored > k then Load(k) else Final(k))
    case Load(k) => Some(Store(k, Pred(m.stored)))
    case Store(k, _) => Some(Aim(k))
    case Aim(k) => Some(Delete(k, m.stored))
    case Delete(k, _) => Some(Test(k))
    case Final(_) => None
  }

  function LockedNext(size: nat, m: Memory, l: Locked, canon: nat -> Hash): Locked {
    match l
    case Free => Free
    case Compare(k) => if k < m.stored then Writing(Test(k), false) else Free
    case Guard(again) => if m.stored == 0 then Free else if again then Seek else Guard(true)
    case Seek => Fetch(Pred(m.stored))
    case Fetch(i) => Judge(Slot(m.heads, i))
    case Judge(head) => if head == canon(Height(size, m.stored)) then Free else Back
    case Back => Writing(Test(Pred(m.stored)), true)
    case Writing(w, verify) =>
      match Then(m, w)
      case Some(x) => Writing(x, verify)
      case None => if verify then Guard(false) else Free
  }

  function Next(size: nat, r: Race, step: Step): Race {
    match step
    case Reorg(k) => if r.locked.Free? then r.(locked := Compare(k)) else r
    case Query => if r.locked.Free? then r.(locked := Guard(false)) else r
    case LockedStep(canon) =>
      Race(if r.locked.Writing? then Written(r.m, r.locked.w) else r.m, LockedNext(size, r.m, r.locked, canon), r.reset)
    case ResetStep =>
      match r.reset
      case Waiting => r.(reset := At(Test(0)))
      case At(w) => Race(Written(r.m, w), r.locked, match Then(r.m, w) case Some(x) => At(x) case None => Over)
      case Over => r
  }

  function Run(size: nat, r: Race, steps: seq<Step>): Race {
    if |steps| == 0 then r else Next(size, Run(size, r, steps[..|steps| - 1]), steps[|steps| - 1])
  }

  lemma RunSnoc(size: nat, r: Race, steps: seq<Step>, step: Step)
    ensures Run(size, r, steps + [step]) == Next(size, Run(size, r, steps), step)
  {
    assert (steps + [step])[..|steps|] == steps;
  }

  /** Both sides are done. */
  predicate Settled(r: Race) {
    r.locked == Free && r.reset == Over
  }

  /** The operation with the lock may write, or go on to. */
  predicate Past(l: Locked) {
    !l.Free? && !l.Compare? && !l.Guard?
  }

  /** The operation sets the count to zero and is not a verification. */
  predicate Empties(l: Locked) {
    l.Writing? && !l.verify && l.w.k == 0
  }

  /** The reset is at work while the operation with the lock is past its comparison, unless at most the
      lowest head is left and both are to clear the index. */
  ghost predicate Clash(r: Race) {
    r.reset.At? && Past(r.locked) && !(Empties(r.locked) && r.m.heads.Keys <= {0})
  }

  ghost predicate NoClash(size: nat, r: Race, steps: seq<Step>) {
    !Clash(Run(size, r, steps)) && (|steps| == 0 || NoClash(size, r, steps[..|steps| - 1]))
  }

  // ---- One writer at a time ----

  /** The index halfway through a call that has it for itself. */
  ghost predicate Alone(hs: Headers, size: nat, m: Memory, w: Write)
    requires size > 0
  {
    match w
    case Test(k) => k <= m.stored && HashLinked(hs, size, m.heads, m.stored)
    case Load(k) => k < m.stored && HashLinked(hs, size, m.heads, m.stored)
    case Store(k, v) => k < m.stored && v == m.stored - 1 && HashLinked(hs, size, m.heads, m.stored)
    case Aim(k) => k <= m.stored && HashLinked(hs, size, m.heads, m.stored + 1)
    case Delete(k, i) => k <= m.stored && i == m.stored && HashLinked(hs, size, m.heads, m.stored + 1)
    case Final(k) => k == m.stored && HashLinked(hs, size, m.heads, m.stored)
  }

  lemma AloneStep(hs: Headers, size: nat, m: Memory, w: Write)
    requires size > 0 && Alone(hs, size, m, w)
    ensures var q := Written(m, w);
            match Then(m, w)
            case Some(x) => x.k == w.k && Alone(hs, size, q, x)
            case None => HashLinked(hs, size, q.heads, q.stored)
    ensures Written(m, w).stored <= m.stored
  {
    if w.Delete? {
      LinkedBelow(hs, size, m.heads, m.stored + 1, m.heads - {w.i}, m.stored);
    }
  }

  /** At most one side writes. */
  ghost predicate Orderly(hs: Headers, size: nat, r: Race)
    requires size > 0
  {
    match r.reset
    case At(w) => w.k == 0 && Alone(hs, size, r.m, w) && !Past(r.locked)
    case _ =>
      if r.locked.Writing? then Alone(hs, size, r.m, r.locked.w)
      else HashLinked(hs, size, r.m.heads, r.m.stored) && (Past(r.locked) ==> r.m.stored > 0)
  }

  // ---- Two writers on at most one section ----

  ghost predicate Quit(w: Option<Write>) {
    w.None? || w.value.Final?
  }

  /** The next deletion of this call is that of the lowest head. */
  ghost predicate Hits(m: Memory, w: Option<Write>) {
    w.Some? && ((w.value.Aim? && m.stored == 0) || (w.value.Delete? && w.value.i == 0))
  }

  /** As long as the lowest head is there, a call that is done leaves it to the other to delete, and
      so does a count of zero. */
  ghost predicate Covered(m: Memory, a: Option<Write>, b: Option<Write>) {
    0 in m.heads ==> (Quit(a) ==> Hits(m, b)) && (Quit(b) ==> Hits(m, a)) && (m.stored == 0 ==> Hits(m, a) || Hits(m, b))
  }

  lemma CoveredStep(m: Memory, w: Write, b: Option<Write>)
    requires w.k == 0 && Covered(m, Some(w), b)
    ensures Covered(Written(m, w), Then(m, w), b) && (Then(m, w).Some? ==> Then(m, w).value.k == 0)
  {
  }

  ghost function ResetWrite(r: Race): Option<Write> {
    if r.reset.At? then Some(r.reset.w) else None
  }

  ghost function LockedWrite(r: Race): Option<Write> {
    if r.locked.Writing? then Some(r.locked.w) else None
  }

  /** At most the lowest head is left, and whoever writes is to clear the index. */
  ghost predicate Clearing(hs: Headers, size: nat, r: Race)
    requires size > 0
  {
    && r.m.heads.Keys <= {0} && (0 in r.m.heads ==> Section(hs, size, 0, ZERO_HASH, r.m.heads[0]))
    && (r.reset.At? ==> r.reset.w.k == 0) && (Past(r.locked) ==> Empties(r.locked))
    && (r.reset.At? || r.locked.Writing?)
    && Covered(r.m, ResetWrite(r), LockedWrite(r))
  }

  /** What every run without a clash keeps. */
  ghost predicate Calm(hs: Headers, size: nat, r: Race)
    requires size > 0
  {
    Orderly(hs, size, r) || Clearing(hs, size, r)
  }

  lemma EmptyIsLinked(hs: Headers, size: nat, m: Memory)
    requires size > 0 && m.heads.Keys <= {0} && 0 !in m.heads && m.stored == 0
    ensures HashLinked(hs, size, m.heads, m.stored)
  {
  }

  lemma OrderlyOverlap(hs: Headers, size: nat, r: Race, q: Race)
    requires size > 0 && Orderly(hs, size, r) && q.m == r.m && q.reset.At? && Past(q.locked) && !Clash(q)
    requires (q.locked == r.locked && q.reset.w == Test(0)) || (q.reset == r.reset && q.locked == Writing(Test(0), false) && r.m.stored > 0)
    ensures Clearing(hs, size, q)
  {
    if 0 in r.m.heads {
      assert Before(r.m.heads, 0) == ZERO_HASH;
    }
  }

  lemma OrderlyReset(hs: Headers, size: nat, r: Race)
    requires size > 0 && Orderly(hs, size, r) && !Clash(Next(size, r, ResetStep))
    ensures Calm(hs, size, Next(size, r, ResetStep))
  {
    var q := Next(size, r, ResetStep);
    if r.reset.At? {
      AloneStep(hs, size, r.m, r.reset.w);
    } else if r.reset.Waiting? && Past(r.locked) {
      OrderlyOverlap(hs, size, r, q);
    }
  }

  lemma OrderlyLocked(hs: Headers, size: nat, r: Race, canon: nat -> Hash)
    requires size > 0 && Orderly(hs, size, r) && !Clash(Next(size, r, LockedStep(canon)))
    ensures Calm(hs, size, Next(size, r, LockedStep(canon)))
  {
    var q := Next(size, r, LockedStep(canon));
    if r.locked.Writing? {
      AloneStep(hs, size, r.m, r.locked.w);
    } else if r.reset.At? && Past(q.locked) {
      OrderlyOverlap(hs, size, r, q);
    }
  }

  lemma ClearingReset(hs: Headers, size: nat, r: Race)
    requires size > 0 && Clearing(hs, size, r)
    ensures Calm(hs, size, Next(size, r, ResetStep))
  {
    var q := Next(size, r, ResetStep);
    if r.reset.At? {
      CoveredStep(r.m, r.reset.w, LockedWrite(r));
      if q.reset.Over? && !q.locked.Writing? {
        EmptyIsLinked(hs, size, q.m);
      }
    }
  }

  lemma ClearingLocked(hs: Headers, size: nat, r: Race, canon: nat -> Hash)
    requires size > 0 && Clearing(hs, size, r) && !Clash(Next(size, r, LockedStep(canon)))
    ensures Calm(hs, size, Next(size, r, LockedStep(canon)))
  {
    var q := Next(size, r, LockedStep(canon));
    if r.locked.Writing? {
      CoveredStep(r.m, r.locked.w, ResetWrite(r));
      if !q.locked.Writing? && !q.reset.At? {
        EmptyIsLinked(hs, size, q.m);
      }
    }
  }

  lemma CalmStep(hs: Headers, size: nat, r: Race, step: Step)
    requires size > 0 && Calm(hs, size, r) && !Clash(Next(size, r, step))
    ensures Calm(hs, size, Next(size, r, step))
  {
    match step
    case Reorg(_) =>
    case Query =>
    case LockedStep(canon) =>
      if Orderly(hs, size, r) { OrderlyLocked(hs, size, r, canon); } else { ClearingLocked(hs, size, r, canon); }
    case ResetStep =>
      if Orderly(hs, size, r) { OrderlyReset(hs, size, r); } else { ClearingReset(hs, size, r); }
  }

  lemma {:induction false} StaysCalm(hs: Headers, size: nat, r: Race, steps: seq<Step>)
    requires size > 0 && Calm(hs, size, r) && NoClash(size, r, steps)
    ensures Calm(hs, size, Run(size, r, steps))
  {
    if |steps| > 0 {
      var n := |steps| - 1;
      StaysCalm(hs, size, r, steps[..n]);
      CalmStep(hs, size, Run(size, r, steps[..n]), steps[n]);
    }
  }

  /** Before the reset and any operation. */
  function Start(m: Memory): Race {
    Race(m, Free, Waiting)
  }

  /** Whatever operations overlap the reset and however the steps fall: without a clash the index is
      linked once both sides are done. */
  lemma LinkedUnlessClash(hs: Headers, size: nat, m: Memory, steps: seq<Step>)
    requires size > 0 && HashLinked(hs, size, m.heads, m.stored) && NoClash(size, Start(m), steps)
    ensures var q := Run(size, Start(m), steps); Settled(q) ==> HashLinked(hs, size, q.m.heads, q.m.stored)
  {
    StaysCalm(hs, size, Start(m), steps);
  }

  // ---- Which operations are safe ----

  /** Operations of goroutines with the lock, at their first comparison. */
  predicate Enters(op: Locked) {
    op.Compare? || op == Guard(false)
  }

  /** The two sides before either has done anything. */
  function Both(m: Memory, op: Locked): Race {
    Race(m, op, Waiting)
  }

  /** A schedule of the two sides, without further operations. */
  ghost predicate Turns(steps: seq<Step>) {
    forall i | 0 <= i < |steps| :: steps[i].LockedStep? || steps[i].ResetStep?
  }

  /** However the steps of this one operation and of the reset fall, the index ends up linked. */
  ghost predicate AlwaysLinked(hs: Headers, size: nat, m: Memory, op: Locked)
    requires size > 0
  {
    forall steps: seq<Step> | Turns(steps) && Settled(Run(size, Both(m, op), steps)) ::
      var q := Run(size, Both(m, op), steps).m; HashLinked(hs, size, q.heads, q.stored)
  }

  /** A reorg is safe if it drops no section or there is at most one; a verification only on an empty
      index. */
  predicate Safe(stored: nat, op: Locked) {
    if op.Compare? then op.k >= stored || stored <= 1 else stored == 0
  }

  /** What a safe operation keeps: it does not get past its comparison, or there is at most the lowest
      head. */
  ghost predicate Quiet(hs: Headers, size: nat, r: Race)
    requires size > 0
  {
    || (&& (if r.reset.At? then r.reset.w.k == 0 && Alone(hs, size, r.m, r.reset.w) else HashLinked(hs, size, r.m.heads, r.m.stored))
        && !Past(r.locked) && (r.locked.Compare? ==> r.locked.k >= r.m.stored) && (r.locked.Guard? ==> r.m.stored == 0))
    || (r.m.heads.Keys <= {0} && (r.locked.Free? || r.locked == Compare(0) || Empties(r.locked)))
  }

  lemma QuietStep(hs: Headers, size: nat, r: Race, step: Step)
    requires size > 0 && Quiet(hs, size, r) && (step.LockedStep? || step.ResetStep?)
    ensures Quiet(hs, size, Next(size, r, step))
  {
    if r.reset.At? && step.ResetStep? && Alone(hs, size, r.m, r.reset.w) {
      AloneStep(hs, size, r.m, r.reset.w);
    }
  }

  lemma {:induction false} StaysQuiet(hs: Headers, size: nat, r: Race, steps: seq<Step>)
    requires size > 0 && Quiet(hs, size, r) && Turns(steps)
    ensures Quiet(hs, size, Run(size, r, steps)) && NoClash(size, r, steps)
  {
    if |steps| > 0 {
      var n := |steps| - 1;
      StaysQuiet(hs, size, r, steps[..n]);
      QuietStep(hs, size, Run(size, r, steps[..n]), steps[n]);
    }
  }

  /** A schedule and where it has come to. */
  ghost predicate Reaches(size: nat, r: Race, steps: seq<Step>, q: Race) {
    Turns(steps) && Run(size, r, steps) == q
  }

  lemma Extend(size: nat, r: Race, steps: seq<Step>, q: Race, step: Step) returns (more: seq<Step>)
    requires Reaches(size, r, steps, q) && (step.LockedStep? || step.ResetStep?)
    ensures Reaches(size, r, more, Next(size, q, step))
  {
    RunSnoc(size, r, steps, step);
    more := steps + [step];
  }

  /** The first half of the loop, up to the decrement. */
  lemma ResetDecrements(size: nat, r: Race, steps: seq<Step>, m: Memory, l: Locked, k: nat) returns (more: seq<Step>)
    requires m.stored > k && Reaches(size, r, steps, Race(m, l, At(Test(k))))
    ensures Reaches(size, r, more, Race(Memory(m.stored - 1, m.heads), l, At(Aim(k))))
  {
    more := Extend(size, r, steps, Race(m, l, At(Test(k))), ResetStep);
    more := Extend(size, r, more, Race(m, l, At(Load(k))), ResetStep);
    more := Extend(size, r, more, Race(m, l, At(Store(k, m.stored - 1))), ResetStep);
  }

  /** The other half: the deletion. */
  lemma ResetDeletes(size: nat, r: Race, steps: seq<Step>, m: Memory, l: Locked, k: nat) returns (more: seq<Step>)
    requires Reaches(size, r, steps, Race(m, l, At(Aim(k))))
    ensures Reaches(size, r, more, Race(Memory(m.stored, m.heads - {m.stored}), l, At(Test(k))))
  {
    more := Extend(size, r, steps, Race(m, l, At(Aim(k))), ResetStep);
    more := Extend(size, r, more, Race(m, l, At(Delete(k, m.stored))), ResetStep);
  }

  /** Once round. */
  lemma ResetRound(size: nat, r: Race, steps: seq<Step>, m: Memory, l: Locked, k: nat) returns (more: seq<Step>)
    requires m.stored > k && Reaches(size, r, steps, Race(m, l, At(Test(k))))
    ensures Reaches(size, r, more, Race(Memory(m.stored - 1, m.heads - {m.stored - 1}), l, At(Test(k))))
  {
    more := ResetDecrements(size, r, steps, m, l, k);
    more := ResetDeletes(size, r, more, Memory(m.stored - 1, m.heads), l, k);
  }

  lemma ResetStops(size: nat, r: Race, steps: seq<Step>, m: Memory, l: Locked, k: nat) returns (more: seq<Step>)
    requires m.stored == k && Reaches(size, r, steps, Race(m, l, At(Test(k))))
    ensures Reaches(size, r, more, Race(m, l, Over))
  {
    more := Extend(size, r, steps, Race(m, l, At(Test(k))), ResetStep);
    more := Extend(size, r, more, Race(m, l, At(Final(k))), ResetStep);
  }

  /** Left to itself the call sets the count and drops exactly the heads in between. */
  lemma {:induction false} ResetRuns(size: nat, r: Race, steps: seq<Step>, m: Memory, l: Locked, k: nat) returns (more: seq<Step>)
    requires m.stored >= k && Reaches(size, r, steps, Race(m, l, At(Test(k))))
    ensures Reaches(size, r, more, Race(Memory(k, Cut(m.heads, k, m.stored)), l, Over))
    decreases m.stored
  {
    if m.stored > k {
      CutMore(m.heads, k, m.stored - 1);
      more := ResetRound(size, r, steps, m, l, k);
      more := ResetRuns(size, r, more, Memory(m.stored - 1, m.heads - {m.stored - 1}), l, k);
    } else {
      CutNone(m.heads, k);
      more := ResetStops(size, r, steps, m, l, k);
    }
  }

  lemma CutMore(heads: map<nat, Hash>, k: nat, top: nat)
    requires k <= top
    ensures Cut(heads - {top}, k, top) == Cut(heads, k, top + 1)
  {
  }

  lemma CutNone(heads: map<nat, Hash>, k: nat)
    ensures Cut(heads, k, k) == heads
  {
  }

  /** A reset that nobody disturbs comes to its end. */
  lemma ResetEnds(size: nat, m: Memory) returns (steps: seq<Step>)
    ensures Settled(Run(size, Start(m), steps))
  {
    steps := Extend(size, Start(m), [], Start(m), ResetStep);
    steps := ResetRuns(size, Start(m), steps, m, Free, 0);
  }

  lemma CutAll(hs: Headers, size: nat, m: Memory)
    requires size > 0 && HashLinked(hs, size, m.heads, m.stored)
    ensures Cut(m.heads, 0, m.stored) == map[]
  {
  }

  /** A reorg that has compared when the reset runs, and writes after it: the count without heads. */
  lemma TornRun(hs: Headers, size: nat, m: Memory, k: nat, canon: nat -> Hash) returns (steps: seq<Step>)
    requires size > 0 && HashLinked(hs, size, m.heads, m.stored) && 0 < k < m.stored
    ensures Reaches(size, Both(m, Compare(k)), steps, Race(Memory(k, map[]), Free, Over)) && !HashLinked(hs, size, map[], k)
  {
    var r, l := Both(m, Compare(k)), LockedStep(canon);
    steps := Extend(size, r, [], r, l);
    var q := r.(locked := Writing(Test(k), false));
    steps := Extend(size, r, steps, q, ResetStep);
    steps := ResetRuns(size, r, steps, m, q.locked, 0);
    CutAll(hs, size, m);
    q := Race(Memory(0, map[]), q.locked, Over);
    steps := Extend(size, r, steps, q, l);
    steps := Extend(size, r, steps, q.(locked := Writing(Final(k), false)), l);
    var none: map<nat, Hash> := map[];
    assert 0 !in none;
  }

  /** A reorg to nothing and the reset both decrement before either deletes: a head is skipped, and stays
      above a count of zero. */
  lemma SkippedHead(hs: Headers, size: nat, m: Memory, canon: nat -> Hash) returns (steps: seq<Step>)
    requires size > 0 && HashLinked(hs, size, m.heads, m.stored) && m.stored >= 2
    ensures Reaches(size, Both(m, Compare(0)), steps, Race(Memory(0, TopOnly(m)), Free, Over)) && !HashLinked(hs, size, TopOnly(m), 0)
  {
    OneLeft(hs, size, m);
    steps := SkippedFirst(size, m, canon);
    steps := SkippedRest(size, Both(m, Compare(0)), steps, m.(stored := m.stored - 2), canon);
  }

  ghost function TopOnly(m: Memory): map<nat, Hash>
    requires m.stored > 0
  {
    map[m.stored - 1 := Slot(m.heads, m.stored - 1)]
  }

  lemma OneLeft(hs: Headers, size: nat, m: Memory)
    requires size > 0 && HashLinked(hs, size, m.heads, m.stored) && m.stored >= 2
    ensures Cut(m.heads - {m.stored - 2}, 0, m.stored - 2) == TopOnly(m) && !HashLinked(hs, size, TopOnly(m), 0)
  {
    assert m.stored - 1 in m.heads && m.stored - 1 in TopOnly(m);
  }

  lemma SkippedFirst(size: nat, m: Memory, canon: nat -> Hash) returns (steps: seq<Step>)
    requires m.stored >= 2
    ensures Reaches(size, Both(m, Compare(0)), steps, Race(m.(stored := m.stored - 2), Writing(Aim(0), false), At(Aim(0))))
  {
    var r, l := Both(m, Compare(0)), LockedStep(canon);
    steps := Extend(size, r, [], r, l);
    steps := Extend(size, r, steps, Race(m, Writing(Test(0), false), Waiting), l);
    steps := Extend(size, r, steps, Race(m, Writing(Load(0), false), Waiting), ResetStep);
    steps := SkippedTwice(size, r, steps, m, canon);
  }

  lemma SkippedTwice(size: nat, r: Race, before: seq<Step>, m: Memory, canon: nat -> Hash) returns (steps: seq<Step>)
    requires m.stored >= 2 && Reaches(size, r, before, Race(m, Writing(Load(0), false), At(Test(0))))
    ensures Reaches(size, r, steps, Race(m.(stored := m.stored - 2), Writing(Aim(0), false), At(Aim(0))))
  {
    var l, one := LockedStep(canon), Memory(m.stored - 1, m.heads);
    steps := ResetDecrements(size, r, before, m, Writing(Load(0), false), 0);
    steps := Extend(size, r, steps, Race(one, Writing(Load(0), false), At(Aim(0))), l);
    steps := Extend(size, r, steps, Race(one, Writing(Store(0, m.stored - 2), false), At(Aim(0))), l);
  }

  lemma SkippedRest(size: nat, r: Race, before: seq<Step>, m: Memory, canon: nat -> Hash) returns (steps: seq<Step>)
    requires Reaches(size, r, before, Race(m, Writing(Aim(0), false), At(Aim(0))))
    ensures Reaches(size, r, steps, Race(Memory(0, Cut(m.heads - {m.stored}, 0, m.stored)), Free, Over))
  {
    var l, s := LockedStep(canon), m.stored;
    var del := m.(heads := m.heads - {s});
    steps := Extend(size, r, before, Race(m, Writing(Aim(0), false), At(Aim(0))), l);
    steps := Extend(size, r, steps, Race(m, Writing(Delete(0, s), false), At(Aim(0))), ResetStep);
    steps := Extend(size, r, steps, Race(m, Writing(Delete(0, s), false), At(Delete(0, s))), ResetStep);
    steps := Extend(size, r, steps, Race(del, Writing(Delete(0, s), false), At(Test(0))), l);
    assert del.heads - {s} == del.heads;
    steps := ResetRuns(size, r, steps, del, Writing(Test(0), false), 0);
    var end := Memory(0, Cut(del.heads, 0, s));
    steps := Extend(size, r, steps, Race(end, Writing(Test(0), false), Over), l);
    steps := Extend(size, r, steps, Race(end, Writing(Final(0), false), Over), l);
  }

  /** A verification that has looked up its head when the reset runs: it then falls back by one from zero,
      and the next comparison finds an unknown block equal to a missing head. */
  lemma WrappedCount(hs: Headers, size: nat, m: Memory, canon: nat -> Hash) returns (steps: seq<Step>)
    requires size > 0 && HashLinked(hs, size, m.heads, m.stored) && m.stored > 0
    requires canon(U64 - 1) == ZERO_HASH && canon(Height(size, U64 - 1)) == ZERO_HASH
    ensures Reaches(size, Both(m, Guard(false)), steps, Race(Memory(U64 - 1, map[]), Free, Over))
    ensures !HashLinked(hs, size, map[], U64 - 1)
  {
    var r, head := Both(m, Guard(false)), Slot(m.heads, m.stored - 1);
    assert Section(hs, size, m.stored - 1, Before(m.heads, m.stored - 1), head);
    steps := LooksUp(size, m, canon);
    steps := ResetRuns(size, r, steps, m, Judge(head), 0);
    CutAll(hs, size, m);
    steps := Wraps(size, r, steps, head, canon);
    steps := WrappedStays(size, r, steps, Memory(U64 - 1, map[]), canon);
    var none: map<nat, Hash> := map[];
    assert 0 !in none;
  }

  lemma LooksUp(size: nat, m: Memory, canon: nat -> Hash) returns (steps: seq<Step>)
    requires m.stored > 0
    ensures Reaches(size, Both(m, Guard(false)), steps, Race(m, Judge(Slot(m.heads, m.stored - 1)), At(Test(0))))
  {
    var r, l := Both(m, Guard(false)), LockedStep(canon);
    steps := Extend(size, r, [], r, l);
    steps := Extend(size, r, steps, r.(locked := Guard(true)), l);
    steps := Extend(size, r, steps, r.(locked := Seek), l);
    steps := Extend(size, r, steps, r.(locked := Fetch(m.stored - 1)), l);
    steps := Extend(size, r, steps, r.(locked := Judge(Slot(m.heads, m.stored - 1))), ResetStep);
  }

  /** One section less than none. */
  lemma Wraps(size: nat, r: Race, before: seq<Step>, head: Hash, canon: nat -> Hash) returns (steps: seq<Step>)
    requires Reaches(size, r, before, Race(Memory(0, map[]), Judge(head), Over)) && head != canon(U64 - 1)
    ensures Reaches(size, r, steps, Race(Memory(U64 - 1, map[]), Guard(false), Over))
  {
    var l, none := LockedStep(canon), Memory(0, map[]);
    assert Height(size, 0) == U64 - 1;
    steps := Extend(size, r, before, Race(none, Judge(head), Over), l);
    steps := Extend(size, r, steps, Race(none, Back, Over), l);
    steps := Extend(size, r, steps, Race(none, Writing(Test(U64 - 1), true), Over), l);
    steps := Extend(size, r, steps, Race(none, Writing(Final(U64 - 1), true), Over), l);
  }

  lemma WrappedStays(size: nat, r: Race, before: seq<Step>, m: Memory, canon: nat -> Hash) returns (steps: seq<Step>)
    requires m.heads == map[] && m.stored > 0 && canon(Height(size, m.stored)) == ZERO_HASH
    requires Reaches(size, r, before, Race(m, Guard(false), Over))
    ensures Reaches(size, r, steps, Race(m, Free, Over))
  {
    var l := LockedStep(canon);
    steps := Extend(size, r, before, Race(m, Guard(false), Over), l);
    steps := Extend(size, r, steps, Race(m, Guard(true), Over), l);
    steps := Extend(size, r, steps, Race(m, Seek, Over), l);
    steps := Extend(size, r, steps, Race(m, Fetch(m.stored - 1), Over), l);
    steps := Extend(size, r, steps, Race(m, Judge(ZERO_HASH), Over), l);
  }

  lemma UnsafeRun(hs: Headers, size: nat, m: Memory, op: Locked) returns (steps: seq<Step>)
    requires size > 0 && HashLinked(hs, size, m.heads, m.stored) && Enters(op) && !Safe(m.stored, op)
    ensures var q := Run(size, Both(m, op), steps);
            Turns(steps) && Settled(q) && !HashLinked(hs, size, q.m.heads, q.m.stored)
  {
    var unknown: nat -> Hash := _ => ZERO_HASH;
    if op.Guard? {
      steps := WrappedCount(hs, size, m, unknown);
    } else if op.k == 0 {
      steps := SkippedHead(hs, size, m, unknown);
    } else {
      steps := TornRun(hs, size, m, op.k, unknown);
    }
  }

  /** Exactly which operations a failed reset can meet without harm: for every linked index, all
      interleavings with the reset leave it linked if and only if the operation is safe. */
  lemma SafeExactly(hs: Headers, size: nat, m: Memory, op: Locked)
    requires size > 0 && HashLinked(hs, size, m.heads, m.stored) && Enters(op)
    ensures AlwaysLinked(hs, size, m, op) <==> Safe(m.stored, op)
  {
    if Safe(m.stored, op) {
      forall steps: seq<Step> | Turns(steps) && Settled(Run(size, Both(m, op), steps))
        ensures var q := Run(size, Both(m, op), steps).m; HashLinked(hs, size, q.heads, q.stored)
      {
        StaysQuiet(hs, size, Both(m, op), steps);
        StaysCalm(hs, size, Both(m, op), steps);
      }
    } else {
      var steps := UnsafeRun(hs, size, m, op);
      assert !AlwaysLinked(hs, size, m, op);
    }
  }

  // ---- What any run leaves ----

  ghost predicate InRange(w: Write) {
    w.k < U64 && (w.Store? ==> w.v < U64)
  }

  /** Heads are only ever removed, and the count fits 64 bits. */
  ghost predicate Within(r: Race, heads: map<nat, Hash>) {
    && (forall i: nat | i in r.m.heads :: i in heads && r.m.heads[i] == heads[i])
    && r.m.stored < U64 && (r.locked.Writing? ==> InRange(r.locked.w)) && (r.reset.At? ==> InRange(r.reset.w))
  }

  lemma {:induction false} StaysWithin(size: nat, r: Race, heads: map<nat, Hash>, steps: seq<Step>)
    requires Within(r, heads)
    ensures Within(Run(size, r, steps), heads)
  {
    if |steps| > 0 {
      StaysWithin(size, r, heads, steps[..|steps| - 1]);
    }
  }
}
