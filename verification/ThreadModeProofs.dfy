/** What every interleaving of the thread modes guarantees. */
module ThreadModeProofs {
  import opened Tallies
  import opened Checksums
  import opened Sums
  import opened Partitions
  import opened ThreadMode

  // ----- Stores done so far -----

  /** How often a thread has stored to counter c. */
  function StoresBy(f: int -> Outcome, t: Thread, c: Counter): int {
    Get(RangeTally(f, t.start, t.next), c) +
    (if t.pc.Adding? then Hits(f(t.next), c) - Occurrences(t.pc.todo, c) else 0)
  }

  function Stores(f: int -> Outcome, c: Counter): Thread -> int { (t: Thread) => StoresBy(f, t, c) }

  ghost predicate IsTail(todo: seq<Counter>, cells: seq<Counter>) {
    |todo| <= |cells| && todo == cells[|cells| - |todo|..]
  }

  /** A thread stays in its range, and what it still has to increment is the tail of its trial's cells. */
  ghost predicate ThreadOk(f: int -> Outcome, t: Thread) {
    && t.start <= t.next <= t.end
    && (t.pc.Adding? ==>
          && t.next < t.end && (t.pc.todo == [] ==> t.pc.reg.Empty?)
          && IsTail(t.pc.todo, Touched(f(t.next))))
  }

  ghost predicate ThreadsOk(f: int -> Outcome, s: State) {
    forall i :: 0 <= i < |s.threads| ==> ThreadOk(f, s.threads[i])
  }

  lemma {:induction false} OccurrencesTail(cs: seq<Counter>, j: nat, c: Counter)
    requires j <= |cs|
    ensures Occurrences(cs[j..], c) <= Occurrences(cs, c)
  {
    if j > 0 {
      assert cs[1..][j - 1..] == cs[j..];
      OccurrencesTail(cs[1..], j - 1, c);
    }
  }

  /** A thread has stored to a counter at most as often as its whole part hits it, and less while it is
      about to store. */
  lemma StoresBounds(f: int -> Outcome, t: Thread, c: Counter)
    requires ThreadOk(f, t)
    ensures 0 <= StoresBy(f, t, c) <= Get(RangeTally(f, t.start, t.end), c)
    ensures t.pc.Adding? && t.pc.todo != [] && t.pc.todo[0] == c ==>
      StoresBy(f, t, c) < Get(RangeTally(f, t.start, t.end), c)
  {
    RangeMonotone(f, t.start, t.next, t.end, c);
    if t.pc.Adding? {
      var cells := Touched(f(t.next));
      OccurrencesTail(cells, |cells| - |t.pc.todo|, c);
      TouchedHits(f(t.next), c);
      RangeMonotone(f, t.start, t.next + 1, t.end, c);
      GetAddTrial(RangeTally(f, t.start, t.next), f(t.next), c);
    }
  }

  lemma TailOfTail(todo: seq<Counter>, cells: seq<Counter>)
    requires IsTail(todo, cells) && todo != []
    ensures IsTail(todo[1..], cells)
  {
    var j := |cells| - |todo|;
    assert cells[j..][1..] == cells[j + 1..];
  }

  lemma ReadyStep(f: int -> Outcome, t: Thread, local: Tally)
    requires ThreadOk(f, t) && t.pc.Ready? && t.next < t.end
    ensures ThreadOk(f, t.(local := local, next := t.next + 1))
    ensures ThreadOk(f, t.(pc := Adding(Touched(f(t.next)), Empty)))
  {
    var cells := Touched(f(t.next));
    assert cells[0..] == cells;
  }

  lemma AddingStep(f: int -> Outcome, t: Thread, v: int)
    requires ThreadOk(f, t) && t.pc.Adding?
    ensures t.pc.todo != [] ==> ThreadOk(f, t.(pc := t.pc.(reg := Loaded(v))))
    ensures t.pc.todo != [] ==> ThreadOk(f, t.(pc := Adding(t.pc.todo[1..], Empty)))
    ensures ThreadOk(f, t.(next := t.next + 1, pc := Ready))
  {
    if t.pc.todo != [] {
      TailOfTail(t.pc.todo, Touched(f(t.next)));
    }
  }

  lemma OneThreadStep(f: int -> Outcome, mode: SyncMode, s: State, step: Step)
    requires Enabled(mode, s, step) && ThreadOk(f, s.threads[step.k])
    ensures ThreadOk(f, Do(f, mode, s, step).threads[step.k])
  {
    var t := s.threads[step.k];
    if step.Begin? {
      ReadyStep(f, t, AddTrial(t.local, f(t.next)));
    } else {
      AddingStep(f, t, if step.Load? then Get(s.shared, t.pc.todo[0]) else 0);
    }
  }

  lemma OthersUnchanged(f: int -> Outcome, mode: SyncMode, s: State, step: Step)
    requires Enabled(mode, s, step)
    ensures var t := Do(f, mode, s, step); t.threads == s.threads[step.k := t.threads[step.k]]
  {
  }

  lemma ThreadsOkUpdate(f: int -> Outcome, s: State, t: State, k: nat)
    requires ThreadsOk(f, s) && k < |s.threads| == |t.threads|
    requires t.threads == s.threads[k := t.threads[k]] && ThreadOk(f, t.threads[k])
    ensures ThreadsOk(f, t)
  {
  }

  lemma ThreadStep(f: int -> Outcome, mode: SyncMode, s: State, step: Step)
    requires ThreadsOk(f, s) && Enabled(mode, s, step)
    ensures ThreadsOk(f, Do(f, mode, s, step))
  {
    OneThreadStep(f, mode, s, step);
    OthersUnchanged(f, mode, s, step);
    ThreadsOkUpdate(f, s, Do(f, mode, s, step), step.k);
  }

  /** A store step adds one store to its counter; no other step adds any. */
  lemma StoresByStep(f: int -> Outcome, mode: SyncMode, s: State, step: Step, c: Counter)
    requires Enabled(mode, s, step) && !mode.Reduce? && ThreadOk(f, s.threads[step.k])
    ensures StoresBy(f, Do(f, mode, s, step).threads[step.k], c) == StoresBy(f, s.threads[step.k], c) +
      (if step.Store? && s.threads[step.k].pc.todo[0] == c then 1 else 0)
  {
    var t := s.threads[step.k];
    TouchedHits(f(t.next), c);
    GetAddTrial(RangeTally(f, t.start, t.next), f(t.next), c);
  }

  lemma StoresStep(f: int -> Outcome, mode: SyncMode, s: State, step: Step, c: Counter)
    requires ThreadsOk(f, s) && Enabled(mode, s, step) && !mode.Reduce?
    ensures var t := Do(f, mode, s, step);
      Sum(t.threads, Stores(f, c)) == Sum(s.threads, Stores(f, c)) +
        (if step.Store? && s.threads[step.k].pc.todo[0] == c then 1 else 0)
  {
    var t := Do(f, mode, s, step);
    OthersUnchanged(f, mode, s, step);
    SumUpdate(s.threads, step.k, t.threads[step.k], Stores(f, c));
    StoresByStep(f, mode, s, step, c);
  }

  // ----- When all threads are joined -----

  /** The tallies of the trials each thread has finished, merged. */
  function DoneTally(f: int -> Outcome, threads: seq<Thread>): Tally {
    if threads == [] then ZERO
    else Add(RangeTally(f, threads[0].start, threads[0].next), DoneTally(f, threads[1..]))
  }

  lemma {:induction false} StoresAreDone(f: int -> Outcome, threads: seq<Thread>, c: Counter)
    requires forall i :: 0 <= i < |threads| ==> threads[i].pc.Ready?
    ensures Sum(threads, Stores(f, c)) == Get(DoneTally(f, threads), c)
  {
    if threads == [] {
      GetZero(c);
    } else {
      StoresAreDone(f, threads[1..], c);
      GetAdd(RangeTally(f, threads[0].start, threads[0].next), DoneTally(f, threads[1..]), c);
    }
  }

  lemma {:induction false} DoneTallySnoc(f: int -> Outcome, threads: seq<Thread>, last: Thread)
    ensures DoneTally(f, threads + [last]) == Add(DoneTally(f, threads), RangeTally(f, last.start, last.next))
  {
    var own := RangeTally(f, last.start, last.next);
    if threads == [] {
      assert ([last])[1..] == [] && threads + [last] == [last];
      AddZero(own);
    } else {
      assert (threads + [last])[1..] == threads[1..] + [last];
      DoneTallySnoc(f, threads[1..], last);
      AddAssociates(RangeTally(f, threads[0].start, threads[0].next), DoneTally(f, threads[1..]), own);
    }
  }

  /** Ranges and mode of the threads do not change along a schedule. */
  ghost predicate SameRanges(s: State, t: State) {
    && |t.threads| == |s.threads|
    && forall i :: 0 <= i < |s.threads| ==>
         t.threads[i].start == s.threads[i].start && t.threads[i].end == s.threads[i].end
  }

  lemma {:induction false} RangesAlong(f: int -> Outcome, mode: SyncMode, s: State, steps: seq<Step>)
    requires IsSchedule(f, mode, s, steps)
    ensures SameRanges(s, After(f, mode, s, steps))
    decreases |steps|
  {
    if steps != [] {
      var t := Do(f, mode, s, steps[0]);
      assert SameRanges(s, t);
      RangesAlong(f, mode, t, steps[1..]);
    }
  }

  /** The ranges of the threads follow each other from lo to hi. */
  ghost predicate Chained(s: State, lo: int, hi: int) {
    && 0 < |s.threads|
    && s.threads[0].start == lo && s.threads[|s.threads| - 1].end == hi
    && forall i :: 0 <= i < |s.threads| - 1 ==> s.threads[i].end == s.threads[i + 1].start
  }

  lemma ChainedInit(base: int, n: nat, count: nat)
    requires 0 < count
    ensures Chained(Init(base, n, count, count), base, base + n)
  {
    var s := Init(base, n, count, count);
    forall i | 0 <= i < count - 1
      ensures s.threads[i].end == s.threads[i + 1].start
    {
      PartsJoin(n, count, i);
    }
    PartsJoin(n, count, count - 1);
  }

  lemma ChainedAlong(f: int -> Outcome, mode: SyncMode, base: int, n: nat, count: nat, steps: seq<Step>)
    requires 0 < count && IsSchedule(f, mode, Init(base, n, count, count), steps)
    ensures var s := After(f, mode, Init(base, n, count, count), steps);
      Chained(s, base, base + n) && |s.threads| == count
  {
    ChainedInit(base, n, count);
    RangesAlong(f, mode, Init(base, n, count, count), steps);
  }

  /** Threads that finished neighbouring ranges finished the whole from the first cut to the last. */
  lemma {:induction false} DoneTiles(f: int -> Outcome, threads: seq<Thread>, cuts: seq<int>)
    requires |cuts| == |threads| + 1
    requires forall i :: 0 <= i < |threads| ==> threads[i].start == cuts[i] <= threads[i].next == cuts[i + 1]
    ensures cuts[0] <= cuts[|threads|]
    ensures DoneTally(f, threads) == RangeTally(f, cuts[0], cuts[|threads|])
  {
    if threads != [] {
      DoneTiles(f, threads[1..], cuts[1..]);
      RangeSplit(f, cuts[0], cuts[1], cuts[|threads|]);
    }
  }

  /** When every thread has joined, the finished trials are all trials. */
  lemma JoinedIsWhole(f: int -> Outcome, s: State, lo: int, hi: int)
    requires Chained(s, lo, hi) && ThreadsOk(f, s) && Joined(s)
    ensures DoneTally(f, s.threads) == RangeTally(f, lo, hi)
  {
    var n := |s.threads|;
    var cuts := seq(n, i requires 0 <= i < n => s.threads[i].start) + [hi];
    forall i | 0 <= i < n
      ensures s.threads[i].start == cuts[i] <= s.threads[i].next == cuts[i + 1]
    {
      assert ThreadOk(f, s.threads[i]);
    }
    DoneTiles(f, s.threads, cuts);
  }

  lemma InitOk(f: int -> Outcome, base: int, n: nat, count: nat, created: nat)
    requires 0 < count && created <= count
    ensures var s := Init(base, n, count, created);
      && ThreadsOk(f, s) && SameRanges(s, s)
      && forall c: Counter :: Sum(s.threads, Stores(f, c)) == 0
  {
    var s := Init(base, n, count, created);
    forall i | 0 <= i < created
      ensures ThreadOk(f, s.threads[i])
    {
      PartsJoin(n, count, i);
    }
    forall c: Counter
      ensures Sum(s.threads, Stores(f, c)) == 0
    {
      SumBounds(s.threads, Stores(f, c), 0, 0);
    }
  }

  // ----- Nosync: updates can be lost, never invented -----

  /** Every shared counter is at most the number of stores to it, a loaded value is too, and a counter
      that was ever stored to is positive. */
  ghost predicate LossyCell(f: int -> Outcome, s: State, c: Counter) {
    var stores := Sum(s.threads, Stores(f, c));
    && 0 <= Get(s.shared, c) <= stores
    && (0 < stores ==> 0 < Get(s.shared, c))
    && forall i :: 0 <= i < |s.threads| ==> RegisterAtMost(s.threads[i], c, stores)
  }

  ghost predicate Lossy(f: int -> Outcome, s: State) {
    ThreadsOk(f, s) && forall c: Counter :: LossyCell(f, s, c)
  }

  lemma SharedStep(f: int -> Outcome, mode: SyncMode, s: State, step: Step, c: Counter)
    requires !mode.Reduce? && Enabled(mode, s, step)
    ensures Get(Do(f, mode, s, step).shared, c) ==
      if step.Store? && s.threads[step.k].pc.todo[0] == c then s.threads[step.k].pc.reg.v + 1 else Get(s.shared, c)
  {
  }

  /** The loaded value of one thread, if it is about to store to c. */
  ghost predicate RegisterAtMost(t: Thread, c: Counter, stores: int) {
    t.pc.Adding? && t.pc.todo != [] && t.pc.todo[0] == c && t.pc.reg.Loaded? ==> 0 <= t.pc.reg.v <= stores
  }

  lemma RegisterStep(f: int -> Outcome, mode: SyncMode, s: State, step: Step, c: Counter, stores: int, i: nat)
    requires !mode.Reduce? && Enabled(mode, s, step) && i < |s.threads|
    requires 0 <= Get(s.shared, c) <= stores && RegisterAtMost(s.threads[i], c, stores)
    ensures RegisterAtMost(Do(f, mode, s, step).threads[i], c, stores)
  {
    OthersUnchanged(f, mode, s, step);
  }

  lemma LossyCellStep(f: int -> Outcome, mode: SyncMode, s: State, step: Step, c: Counter)
    requires !mode.Reduce? && Enabled(mode, s, step) && ThreadsOk(f, s) && LossyCell(f, s, c)
    ensures LossyCell(f, Do(f, mode, s, step), c)
  {
    StoresStep(f, mode, s, step, c);
    SharedStep(f, mode, s, step, c);
    OthersUnchanged(f, mode, s, step);
    var t := Do(f, mode, s, step);
    var before, after := Sum(s.threads, Stores(f, c)), Sum(t.threads, Stores(f, c));
    assert RegisterAtMost(s.threads[step.k], c, before);
    forall i | 0 <= i < |t.threads|
      ensures RegisterAtMost(t.threads[i], c, after)
    {
      RegisterStep(f, mode, s, step, c, before, i);
    }
  }

  lemma LossyInit(f: int -> Outcome, base: int, n: nat, count: nat, created: nat)
    requires 0 < count && created <= count
    ensures Lossy(f, Init(base, n, count, created))
  {
    InitOk(f, base, n, count, created);
    forall c: Counter
      ensures LossyCell(f, Init(base, n, count, created), c)
    {
      GetZero(c);
    }
  }

  lemma LossyStep(f: int -> Outcome, mode: SyncMode, s: State, step: Step)
    requires !mode.Reduce? && Enabled(mode, s, step) && Lossy(f, s)
    ensures Lossy(f, Do(f, mode, s, step))
  {
    ThreadStep(f, mode, s, step);
    forall c: Counter
      ensures LossyCell(f, Do(f, mode, s, step), c)
    {
      LossyCellStep(f, mode, s, step, c);
    }
  }

  lemma {:induction false} LossyAlong(f: int -> Outcome, mode: SyncMode, s: State, steps: seq<Step>)
    requires !mode.Reduce? && Lossy(f, s) && IsSchedule(f, mode, s, steps)
    ensures Lossy(f, After(f, mode, s, steps))
    decreases |steps|
  {
    if steps != [] {
      LossyStep(f, mode, s, steps[0]);
      LossyAlong(f, mode, Do(f, mode, s, steps[0]), steps[1..]);
    }
  }

  lemma LossyWhenJoined(f: int -> Outcome, base: int, n: nat, s: State, c: Counter)
    requires Chained(s, base, base + n) && Lossy(f, s) && Joined(s)
    ensures 0 <= Get(s.shared, c) <= Get(RangeTally(f, base, base + n), c)
    ensures Get(s.shared, c) == 0 <==> Get(RangeTally(f, base, base + n), c) == 0
  {
    StoresAreDone(f, s.threads, c);
    JoinedIsWhole(f, s, base, base + n);
    assert LossyCell(f, s, c);
  }

  lemma NosyncEnd(f: int -> Outcome, base: int, n: nat, count: nat, steps: seq<Step>)
    requires 0 < count && IsSchedule(f, Nosync, Init(base, n, count, count), steps)
    ensures var s := After(f, Nosync, Init(base, n, count, count), steps); Chained(s, base, base + n) && Lossy(f, s)
  {
    LossyInit(f, base, n, count, count);
    LossyAlong(f, Nosync, Init(base, n, count, count), steps);
    ChainedAlong(f, Nosync, base, n, count, steps);
  }

  /** In every nosync interleaving each final counter is at most its sequential value, and it is zero
      only if the sequential value is. */
  lemma NosyncNeverOvercounts(f: int -> Outcome, base: int, n: nat, count: nat, r: Tally)
    requires 0 < count && IsOutcome(f, Nosync, base, n, count, r)
    ensures Undercounts(r, RangeTally(f, base, base + n))
    ensures forall c: Counter :: Get(r, c) == 0 <==> Get(RangeTally(f, base, base + n), c) == 0
  {
    var s0 := Init(base, n, count, count);
    var steps :| IsSchedule(f, Nosync, s0, steps) && Joined(After(f, Nosync, s0, steps))
                 && r == Output(Nosync, After(f, Nosync, s0, steps), count);
    var s := After(f, Nosync, s0, steps);
    NosyncEnd(f, base, n, count, steps);
    forall c: Counter
      ensures 0 <= Get(r, c) <= Get(RangeTally(f, base, base + n), c)
      ensures Get(r, c) == 0 <==> Get(RangeTally(f, base, base + n), c) == 0
    {
      LossyWhenJoined(f, base, n, s, c);
    }
  }

  /** The mode check is exact for nosync: a final result is valid and has the sequential checksum
      exactly when every counter has its sequential value. Validity alone leaves only the collision count
      open. */
  lemma ModeCheckIsExact(f: int -> Outcome, n: nat, count: nat, r: Tally)
    requires 0 < count && 0 < n <= LONG_MAX && IsOutcome(f, Nosync, 0, n, count, r)
    ensures var q := RangeTally(f, 0, n);
      && (IsValid(r, n) && Checksum(r) == Checksum(q) <==> r == q)
      && (IsValid(r, n) <==> r.total == q.total && r.hist == q.hist)
  {
    NosyncNeverOvercounts(f, 0, n, count, r);
    SequentialIsValid(f, n);
    ModeCheckOfUndercount(r, RangeTally(f, 0, n), n);
    ValidityOfUndercount(r, RangeTally(f, 0, n), n);
  }

  /** No mode ever overcounts. */
  lemma OutcomeUndercounts(f: int -> Outcome, mode: SyncMode, base: int, n: nat, count: nat, r: Tally)
    requires 0 < count && IsOutcome(f, mode, base, n, count, r)
    ensures Undercounts(r, RangeTally(f, base, base + n))
  {
    if mode.Nosync? {
      NosyncNeverOvercounts(f, base, n, count, r);
    } else {
      NormalModesAreSequential(f, mode, base, n, count, r);
      CountersWithinTrials(f, base, base + n);
    }
  }

  // ----- One trial at a time: no update is lost -----

  ghost predicate ExactCell(f: int -> Outcome, s: State, c: Counter) {
    Get(s.shared, c) == Sum(s.threads, Stores(f, c))
  }

  /** What a thread has loaded is still what the cell holds. */
  ghost predicate FreshRegister(s: State, pc: Pc) {
    pc.Adding? && pc.todo != [] && pc.reg.Loaded? ==> pc.reg.v == Get(s.shared, pc.todo[0])
  }

  ghost predicate AtMostOne(s: State) {
    forall i, j :: 0 <= i < |s.threads| && 0 <= j < |s.threads| && s.threads[i].pc.Adding? && s.threads[j].pc.Adding?
      ==> i == j
  }

  /** At most one thread is recording a trial, and every shared counter is the number of its stores. */
  ghost predicate Exclusive(f: int -> Outcome, s: State) {
    && ThreadsOk(f, s)
    && AtMostOne(s)
    && (forall i :: 0 <= i < |s.threads| ==> FreshRegister(s, s.threads[i].pc))
    && (forall c: Counter :: ExactCell(f, s, c))
  }

  /** The step does not begin a trial while another one is being recorded. */
  predicate BeginsAlone(s: State, step: Step) {
    step.Begin? ==> forall i :: 0 <= i < |s.threads| ==> s.threads[i].pc.Ready?
  }

  lemma ExactCellStep(f: int -> Outcome, mode: SyncMode, s: State, step: Step, c: Counter)
    requires !mode.Reduce? && ThreadsOk(f, s) && ExactCell(f, s, c) && Enabled(mode, s, step)
    requires FreshRegister(s, s.threads[step.k].pc)
    ensures ExactCell(f, Do(f, mode, s, step), c)
  {
    StoresStep(f, mode, s, step, c);
    if step.Store? {
      var pc := s.threads[step.k].pc;
      GetPut(s.shared, pc.todo[0], pc.reg.v + 1, c);
    }
  }

  lemma FreshRegisterStep(f: int -> Outcome, mode: SyncMode, s: State, step: Step, i: nat)
    requires !mode.Reduce? && AtMostOne(s) && Enabled(mode, s, step) && i < |s.threads|
    requires FreshRegister(s, s.threads[i].pc)
    ensures var t := Do(f, mode, s, step); FreshRegister(t, t.threads[i].pc)
  {
    OthersUnchanged(f, mode, s, step);
  }

  lemma AtMostOneStep(f: int -> Outcome, mode: SyncMode, s: State, step: Step)
    requires !mode.Reduce? && AtMostOne(s) && Enabled(mode, s, step) && BeginsAlone(s, step)
    ensures AtMostOne(Do(f, mode, s, step))
  {
    OthersUnchanged(f, mode, s, step);
  }

  lemma ExclusiveStep(f: int -> Outcome, mode: SyncMode, s: State, step: Step)
    requires !mode.Reduce? && Exclusive(f, s) && Enabled(mode, s, step) && BeginsAlone(s, step)
    ensures Exclusive(f, Do(f, mode, s, step))
  {
    ThreadStep(f, mode, s, step);
    AtMostOneStep(f, mode, s, step);
    forall i | 0 <= i < |s.threads|
      ensures var t := Do(f, mode, s, step); FreshRegister(t, t.threads[i].pc)
    {
      FreshRegisterStep(f, mode, s, step, i);
    }
    assert FreshRegister(s, s.threads[step.k].pc);
    forall c: Counter
      ensures ExactCell(f, Do(f, mode, s, step), c)
    {
      ExactCellStep(f, mode, s, step, c);
    }
  }

  // ----- Mutex -----

  function Locks(t: Thread): int { t.next - t.start + if t.pc.Adding? then 1 else 0 }

  /** A thread records exactly while it holds the mutex. */
  ghost predicate Locked(f: int -> Outcome, s: State) {
    && Exclusive(f, s)
    && (forall i :: 0 <= i < |s.threads| ==> (s.threads[i].pc.Adding? <==> s.holder == HeldBy(i)))
    && (s.holder.HeldBy? ==> s.holder.k < |s.threads|)
    && s.lockWaits == Sum(s.threads, Locks)
  }

  lemma LockedStep(f: int -> Outcome, s: State, step: Step)
    requires Locked(f, s) && Enabled(Mutex, s, step)
    ensures Locked(f, Do(f, Mutex, s, step))
  {
    ExclusiveStep(f, Mutex, s, step);
    SumUpdate(s.threads, step.k, Do(f, Mutex, s, step).threads[step.k], Locks);
  }

  lemma ExclusiveInit(f: int -> Outcome, base: int, n: nat, count: nat, created: nat)
    requires 0 < count && created <= count
    ensures Exclusive(f, Init(base, n, count, created))
  {
    InitOk(f, base, n, count, created);
    forall c: Counter
      ensures ExactCell(f, Init(base, n, count, created), c)
    {
      GetZero(c);
    }
  }

  lemma LockedInit(f: int -> Outcome, base: int, n: nat, count: nat, created: nat)
    requires 0 < count && created <= count
    ensures Locked(f, Init(base, n, count, created))
  {
    ExclusiveInit(f, base, n, count, created);
    SumBounds(Init(base, n, count, created).threads, Locks, 0, 0);
  }

  lemma {:induction false} LockedAlong(f: int -> Outcome, s: State, steps: seq<Step>)
    requires Locked(f, s) && IsSchedule(f, Mutex, s, steps)
    ensures Locked(f, After(f, Mutex, s, steps))
    decreases |steps|
  {
    if steps != [] {
      LockedStep(f, s, steps[0]);
      LockedAlong(f, Do(f, Mutex, s, steps[0]), steps[1..]);
    }
  }

  lemma SharedIsDone(f: int -> Outcome, s: State)
    requires Exclusive(f, s) && forall i :: 0 <= i < |s.threads| ==> s.threads[i].pc.Ready?
    ensures s.shared == DoneTally(f, s.threads)
  {
    forall c: Counter
      ensures Get(s.shared, c) == Get(DoneTally(f, s.threads), c)
    {
      assert ExactCell(f, s, c);
      StoresAreDone(f, s.threads, c);
    }
    TallyExtensional(s.shared, DoneTally(f, s.threads));
  }

  /** Whenever the mutex is free, the shared tally is the merge of the trials finished so far. */
  lemma SharedWhenFree(f: int -> Outcome, s: State)
    requires Locked(f, s) && s.holder.Free?
    ensures s.shared == DoneTally(f, s.threads)
  {
    SharedIsDone(f, s);
  }

  lemma {:induction false} DoneTallyConsistent(f: int -> Outcome, threads: seq<Thread>)
    requires Coherent(f)
    requires forall i :: 0 <= i < |threads| ==> threads[i].start <= threads[i].next
    ensures var t := DoneTally(f, threads); t.total == HistSum(t) && t.collisions == t.hist[RISK_COLLISION]
  {
    if threads != [] {
      DoneTallyConsistent(f, threads[1..]);
      CountersWithinTrials(f, threads[0].start, threads[0].next);
      CollisionsAreTheLastBucket(f, threads[0].start, threads[0].next);
    }
  }

  /** In every reachable state of a mutex run, also when some thread could not be created: while the
      mutex is free the trial count is the sum of the buckets and the collisions are the last bucket. */
  lemma MutexConsistentWhenFree(f: int -> Outcome, base: int, n: nat, count: nat, created: nat, steps: seq<Step>)
    requires Coherent(f) && 0 < count && created <= count
    requires IsSchedule(f, Mutex, Init(base, n, count, created), steps)
    ensures var s := After(f, Mutex, Init(base, n, count, created), steps);
      s.holder.Free? ==>
        s.shared.total == HistSum(s.shared) && s.shared.collisions == s.shared.hist[RISK_COLLISION]
  {
    var s0 := Init(base, n, count, created);
    LockedInit(f, base, n, count, created);
    LockedAlong(f, s0, steps);
    var s := After(f, Mutex, s0, steps);
    if s.holder.Free? {
      SharedWhenFree(f, s);
      assert forall i :: 0 <= i < |s.threads| ==> ThreadOk(f, s.threads[i]);
      DoneTallyConsistent(f, s.threads);
    }
  }

  lemma {:induction false} LocksAreTrials(f: int -> Outcome, threads: seq<Thread>)
    requires forall i :: 0 <= i < |threads| ==> threads[i].pc.Ready? && threads[i].start <= threads[i].next
    ensures Sum(threads, Locks) == DoneTally(f, threads).total
  {
    if threads != [] {
      LocksAreTrials(f, threads[1..]);
      CountersWithinTrials(f, threads[0].start, threads[0].next);
    }
  }

  lemma LocksWhenJoined(f: int -> Outcome, s: State)
    requires Locked(f, s) && Joined(s)
    ensures s.lockWaits == DoneTally(f, s.threads).total
  {
    forall i | 0 <= i < |s.threads|
      ensures s.threads[i].start <= s.threads[i].next
    {
      assert ThreadOk(f, s.threads[i]);
    }
    LocksAreTrials(f, s.threads);
  }

  lemma LockedWhenJoined(f: int -> Outcome, s: State, lo: int, hi: int)
    requires Locked(f, s) && Chained(s, lo, hi) && Joined(s) && lo <= hi
    ensures s.shared == RangeTally(f, lo, hi) && s.lockWaits == hi - lo
  {
    SharedIsDone(f, s);
    JoinedIsWhole(f, s, lo, hi);
    LocksWhenJoined(f, s);
    CountersWithinTrials(f, lo, hi);
  }

  /** How many trials a schedule begins. */
  function Begins(steps: seq<Step>): nat {
    if steps == [] then 0 else (if steps[0].Begin? then 1 else 0) + Begins(steps[1..])
  }

  /** The mutex is counted once for each trial begun in mutex mode, and never in the other modes. */
  lemma {:induction false} LockWaitsCountBegins(f: int -> Outcome, mode: SyncMode, s: State, steps: seq<Step>)
    requires IsSchedule(f, mode, s, steps)
    ensures After(f, mode, s, steps).lockWaits == s.lockWaits + if mode.Mutex? then Begins(steps) else 0
    decreases |steps|
  {
    if steps != [] {
      LockWaitsCountBegins(f, mode, Do(f, mode, s, steps[0]), steps[1..]);
    }
  }

  /** How far the shared tally is while a thread records: the trial count runs ahead of the buckets between
      its own increment and that of the bucket, the collision count ahead of the last bucket. */
  ghost predicate Recording(f: int -> Outcome, shared: Tally, t: Thread) {
    var o, left := f(t.next), if t.pc.Adding? then |t.pc.todo| else 0;
    && shared.total - HistSum(shared) == (if 0 < left < |Touched(o)| then 1 else 0)
    && shared.collisions - shared.hist[RISK_COLLISION] == (if o.collided && left == 1 then 1 else 0)
  }

  ghost predicate InOrder(f: int -> Outcome, s: State) {
    if s.holder.Free? then s.shared.total == HistSum(s.shared) && s.shared.collisions == s.shared.hist[RISK_COLLISION]
    else s.holder.k < |s.threads| && Recording(f, s.shared, s.threads[s.holder.k])
  }

  lemma IncrementSums(t: Tally, c: Counter)
    ensures var u := Put(t, c, Get(t, c) + 1);
      && HistSum(u) == HistSum(t) + (if c.Bucket? then 1 else 0)
      && u.total == t.total + (if c.Total? then 1 else 0)
      && u.collisions == t.collisions + (if c.Collisions? then 1 else 0)
      && u.hist[RISK_COLLISION] == t.hist[RISK_COLLISION] + (if c == Bucket(RISK_COLLISION) then 1 else 0)
  {
  }

  /** The cell a recorder increments next, by the number of cells it still has to increment. */
  lemma NextCell(o: Outcome, todo: seq<Counter>)
    requires todo != [] && IsTail(todo, Touched(o))
    ensures todo[0] == if |todo| == 1 then Bucket(o.risk) else if |todo| == 2 && o.collided then Collisions else Total
    ensures |todo| <= |Touched(o)| == if o.collided then 3 else 2
  {
    assert todo[0] == Touched(o)[|Touched(o)| - |todo|];
  }

  lemma StoreInOrder(f: int -> Outcome, shared: Tally, t: Thread)
    requires Coherent(f) && Recording(f, shared, t) && t.pc.Adding? && t.pc.todo != []
    requires IsTail(t.pc.todo, Touched(f(t.next)))
    ensures var c := t.pc.todo[0];
      Recording(f, Put(shared, c, Get(shared, c) + 1), t.(pc := Adding(t.pc.todo[1..], Empty)))
  {
    NextCell(f(t.next), t.pc.todo);
    IncrementSums(shared, t.pc.todo[0]);
  }

  lemma InOrderStep(f: int -> Outcome, s: State, step: Step)
    requires Coherent(f) && Locked(f, s) && InOrder(f, s) && Enabled(Mutex, s, step)
    ensures InOrder(f, Do(f, Mutex, s, step))
  {
    var t := s.threads[step.k];
    if step.Store? {
      assert ThreadOk(f, t) && FreshRegister(s, t.pc);
      assert s.holder == HeldBy(step.k);
      StoreInOrder(f, s.shared, t);
    } else {
      OtherInOrder(f, s, step);
    }
  }

  lemma OtherInOrder(f: int -> Outcome, s: State, step: Step)
    requires InOrder(f, s) && Enabled(Mutex, s, step) && !step.Store?
    requires s.threads[step.k].pc.Adding? ==> s.holder == HeldBy(step.k)
    ensures InOrder(f, Do(f, Mutex, s, step))
  {
  }

  lemma {:induction false} InOrderAlong(f: int -> Outcome, s: State, steps: seq<Step>)
    requires Coherent(f) && Locked(f, s) && InOrder(f, s) && IsSchedule(f, Mutex, s, steps)
    ensures InOrder(f, After(f, Mutex, s, steps))
    decreases |steps|
  {
    if steps != [] {
      InOrderStep(f, s, steps[0]);
      LockedStep(f, s, steps[0]);
      InOrderAlong(f, Do(f, Mutex, s, steps[0]), steps[1..]);
    }
  }

  /** In every reachable state of a mutex run, inside a critical section or not, a trial is counted before its
      bucket and a collision before the last bucket, and each is ahead by at most one. */
  lemma CountedBeforeBucket(f: int -> Outcome, base: int, n: nat, count: nat, created: nat, steps: seq<Step>)
    requires Coherent(f) && 0 < count && created <= count
    requires IsSchedule(f, Mutex, Init(base, n, count, created), steps)
    ensures var t := After(f, Mutex, Init(base, n, count, created), steps).shared;
      && 0 <= t.total - HistSum(t) <= 1
      && 0 <= t.collisions - t.hist[RISK_COLLISION] <= 1
  {
    LockedInit(f, base, n, count, created);
    InOrderAlong(f, Init(base, n, count, created), steps);
  }

  /** What the created threads of a mutex run leave when they are joined: their own parts. */
  lemma MutexOfCreated(f: int -> Outcome, base: int, n: nat, count: nat, created: nat, steps: seq<Step>)
    requires 0 < count && created <= count && IsSchedule(f, Mutex, Init(base, n, count, created), steps)
    requires Joined(After(f, Mutex, Init(base, n, count, created), steps))
    ensures var s := After(f, Mutex, Init(base, n, count, created), steps);
      0 <= PartStart(n, count, created) == s.lockWaits
      && s.shared == RangeTally(f, base, base + PartStart(n, count, created))
  {
    var s0 := Init(base, n, count, created);
    LockedInit(f, base, n, count, created);
    LockedAlong(f, s0, steps);
    RangesAlong(f, Mutex, s0, steps);
    var cuts := CreatedCuts(base, n, count, created, s0);
    LockedOnCuts(f, s0, After(f, Mutex, s0, steps), cuts);
  }

  lemma LockedOnCuts(f: int -> Outcome, s0: State, s: State, cuts: seq<int>)
    requires SameRanges(s0, s) && Locked(f, s) && Joined(s) && |cuts| == |s0.threads| + 1
    requires forall i :: 0 <= i < |s0.threads| ==> s0.threads[i].start == cuts[i] && s0.threads[i].end == cuts[i + 1]
    ensures s.shared == RangeTally(f, cuts[0], cuts[|s0.threads|]) && s.lockWaits == cuts[|s0.threads|] - cuts[0]
  {
    SharedIsDone(f, s);
    LocksWhenJoined(f, s);
    CutsOfThreads(f, s, s0, cuts);
    DoneTiles(f, s.threads, cuts);
    CountersWithinTrials(f, cuts[0], cuts[|s0.threads|]);
  }

  lemma CreatedCuts(base: int, n: nat, count: nat, created: nat, s: State) returns (cuts: seq<int>)
    requires 0 < count && created <= count && s == Init(base, n, count, created)
    ensures |cuts| == |s.threads| + 1 == created + 1
    ensures cuts[0] == base && cuts[created] == base + PartStart(n, count, created)
    ensures 0 <= PartStart(n, count, created)
    ensures forall i :: 0 <= i < |s.threads| ==> s.threads[i].start == cuts[i] && s.threads[i].end == cuts[i + 1]
  {
    cuts := seq(created + 1, i => base + PartStart(n, count, i));
    forall i | 0 <= i < |s.threads|
      ensures s.threads[i].start == cuts[i] && s.threads[i].end == cuts[i + 1]
    {
      PartsJoin(n, count, i);
    }
    PartsJoin(n, count, 0);
    PartStartsAscend(n, count, 0, created);
  }

  lemma CutsOfThreads(f: int -> Outcome, s: State, s0: State, cuts: seq<int>)
    requires SameRanges(s0, s) && ThreadsOk(f, s) && Joined(s) && |cuts| == |s0.threads| + 1
    requires forall i :: 0 <= i < |s0.threads| ==> s0.threads[i].start == cuts[i] && s0.threads[i].end == cuts[i + 1]
    ensures forall i :: 0 <= i < |s.threads| ==> s.threads[i].start == cuts[i] <= s.threads[i].next == cuts[i + 1]
  {
    forall i | 0 <= i < |s.threads|
      ensures s.threads[i].start == cuts[i] <= s.threads[i].next == cuts[i + 1]
    {
      assert ThreadOk(f, s.threads[i]);
    }
  }

  /** Every mutex interleaving ends in the sequential result and takes the mutex once per trial. */
  lemma MutexEqualsSequential(f: int -> Outcome, base: int, n: nat, count: nat, steps: seq<Step>)
    requires 0 < count && IsSchedule(f, Mutex, Init(base, n, count, count), steps)
    requires Joined(After(f, Mutex, Init(base, n, count, count), steps))
    ensures var s := After(f, Mutex, Init(base, n, count, count), steps);
      Output(Mutex, s, count) == RangeTally(f, base, base + n) && s.lockWaits == n
  {
    LockedInit(f, base, n, count, count);
    LockedAlong(f, Init(base, n, count, count), steps);
    ChainedAlong(f, Mutex, base, n, count, steps);
    LockedWhenJoined(f, After(f, Mutex, Init(base, n, count, count), steps), base, base + n);
  }

  // ----- Reduce -----

  ghost predicate Reduced(f: int -> Outcome, s: State) {
    ThreadsOk(f, s) && forall i :: 0 <= i < |s.threads| ==>
      s.threads[i].pc.Ready? && s.threads[i].local == RangeTally(f, s.threads[i].start, s.threads[i].next)
  }

  lemma {:induction false} ReducedAlong(f: int -> Outcome, s: State, steps: seq<Step>)
    requires Reduced(f, s) && IsSchedule(f, Reduce, s, steps)
    ensures Reduced(f, After(f, Reduce, s, steps))
    decreases |steps|
  {
    if steps != [] {
      ReducedAlong(f, Do(f, Reduce, s, steps[0]), steps[1..]);
    }
  }

  /** In reduce mode nobody touches the shared tally. */
  lemma {:induction false} ReduceKeepsShared(f: int -> Outcome, s: State, steps: seq<Step>)
    requires Reduced(f, s) && IsSchedule(f, Reduce, s, steps)
    ensures After(f, Reduce, s, steps).shared == s.shared
    decreases |steps|
  {
    if steps != [] {
      ReduceKeepsShared(f, Do(f, Reduce, s, steps[0]), steps[1..]);
    }
  }

  lemma {:induction false} LocalsAreDone(f: int -> Outcome, threads: seq<Thread>)
    requires forall i :: 0 <= i < |threads| ==>
      threads[i].local == RangeTally(f, threads[i].start, threads[i].next)
    ensures MergeLocals(threads) == DoneTally(f, threads)
  {
    if threads != [] {
      var init, last := threads[..|threads| - 1], threads[|threads| - 1];
      LocalsAreDone(f, init);
      DoneTallySnoc(f, init, last);
      assert threads == init + [last];
    }
  }

  /** Every reduce interleaving ends in the sequential result. */
  lemma ReduceEqualsSequential(f: int -> Outcome, base: int, n: nat, count: nat, steps: seq<Step>)
    requires 0 < count && IsSchedule(f, Reduce, Init(base, n, count, count), steps)
    requires Joined(After(f, Reduce, Init(base, n, count, count), steps))
    ensures Output(Reduce, After(f, Reduce, Init(base, n, count, count), steps), count)
         == RangeTally(f, base, base + n)
  {
    var s0 := Init(base, n, count, count);
    InitOk(f, base, n, count, count);
    ReducedAlong(f, s0, steps);
    ChainedAlong(f, Reduce, base, n, count, steps);
    var s := After(f, Reduce, s0, steps);
    LocalsAreDone(f, s.threads);
    JoinedIsWhole(f, s, base, base + n);
  }

  /** The two normal thread modes have one outcome: the sequential tally. */
  lemma NormalModesAreSequential(f: int -> Outcome, mode: SyncMode, base: int, n: nat, count: nat, r: Tally)
    requires 0 < count && !mode.Nosync? && IsOutcome(f, mode, base, n, count, r)
    ensures r == RangeTally(f, base, base + n)
  {
    var s0 := Init(base, n, count, count);
    var steps :| IsSchedule(f, mode, s0, steps) && Joined(After(f, mode, s0, steps))
                 && r == Output(mode, After(f, mode, s0, steps), count);
    if mode.Mutex? {
      MutexEqualsSequential(f, base, n, count, steps);
    } else {
      ReduceEqualsSequential(f, base, n, count, steps);
    }
  }

  // ----- At any moment, with any number of threads created -----

  /** How often the whole part of a thread hits counter c. */
  function Wants(f: int -> Outcome, c: Counter): Thread -> int {
    (t: Thread) => Get(RangeTally(f, t.start, t.end), c)
  }

  lemma {:induction false} ChainedWants(f: int -> Outcome, threads: seq<Thread>, cuts: seq<int>, c: Counter)
    requires |cuts| == |threads| + 1
    requires forall i :: 0 <= i < |threads| ==> threads[i].start == cuts[i] <= threads[i].end == cuts[i + 1]
    ensures cuts[0] <= cuts[|threads|]
    ensures Sum(threads, Wants(f, c)) == Get(RangeTally(f, cuts[0], cuts[|threads|]), c)
  {
    if threads == [] {
      GetZero(c);
    } else {
      ChainedWants(f, threads[1..], cuts[1..], c);
      RangeSplit(f, cuts[0], cuts[1], cuts[|threads|]);
      GetAdd(RangeTally(f, cuts[0], cuts[1]), RangeTally(f, cuts[1], cuts[|threads|]), c);
    }
  }

  lemma CreatedWants(f: int -> Outcome, base: int, n: nat, count: nat, created: nat, c: Counter)
    requires 0 < count && created <= count
    ensures 0 <= PartStart(n, count, created)
    ensures Sum(Init(base, n, count, created).threads, Wants(f, c))
         == Get(RangeTally(f, base, base + PartStart(n, count, created)), c)
  {
    var threads := Init(base, n, count, created).threads;
    var cuts := seq(created + 1, i => base + PartStart(n, count, i));
    forall i | 0 <= i < created
      ensures threads[i].start == cuts[i] <= threads[i].end == cuts[i + 1]
    {
      PartsJoin(n, count, i);
    }
    PartsJoin(n, count, 0);
    ChainedWants(f, threads, cuts, c);
  }

  lemma StoresWithinWants(f: int -> Outcome, s: State, c: Counter)
    requires ThreadsOk(f, s)
    ensures Sum(s.threads, Stores(f, c)) <= Sum(s.threads, Wants(f, c))
  {
    forall t <- s.threads
      ensures StoresBy(f, t, c) <= Wants(f, c)(t)
    {
      assert ThreadOk(f, t);
      StoresBounds(f, t, c);
    }
    SumAtMost(s.threads, Stores(f, c), Wants(f, c));
  }

  /** In every reachable state of every mode, finished or not and however many threads could be created, no
      shared counter exceeds its sequential value. */
  lemma SharedNeverOvercounts(f: int -> Outcome, mode: SyncMode, base: int, n: nat, count: nat, created: nat,
                              steps: seq<Step>)
    requires 0 < count && created <= count && IsSchedule(f, mode, Init(base, n, count, created), steps)
    ensures Undercounts(After(f, mode, Init(base, n, count, created), steps).shared, RangeTally(f, base, base + n))
  {
    var s := Init(base, n, count, created);
    CountersWithinTrials(f, base, base + n);
    if mode.Reduce? {
      InitOk(f, base, n, count, created);
      ReduceKeepsShared(f, s, steps);
      forall c: Counter
        ensures Get(ZERO, c) == 0
      {
        GetZero(c);
      }
    } else {
      LossyInit(f, base, n, count, created);
      LossyAlong(f, mode, s, steps);
      RangesAlong(f, mode, s, steps);
      forall c: Counter
        ensures 0 <= Get(After(f, mode, s, steps).shared, c) <= Get(RangeTally(f, base, base + n), c)
      {
        CellNeverOvercounts(f, s, After(f, mode, s, steps), base, n, count, created, c);
      }
    }
  }

  lemma CellNeverOvercounts(f: int -> Outcome, s: State, t: State, base: int, n: nat, count: nat, created: nat, c: Counter)
    requires 0 < count && created <= count && s == Init(base, n, count, created)
    requires SameRanges(s, t) && Lossy(f, t)
    ensures 0 <= Get(t.shared, c) <= Get(RangeTally(f, base, base + n), c)
  {
    assert LossyCell(f, t, c);
    StoresWithinWants(f, t, c);
    SumPointwise(t.threads, s.threads, Wants(f, c), Wants(f, c));
    CreatedWants(f, base, n, count, created, c);
    CreatedWithinAll(f, base, n, count, created, c);
  }

  lemma CreatedWithinAll(f: int -> Outcome, base: int, n: nat, count: nat, created: nat, c: Counter)
    requires 0 < count && created <= count && 0 <= PartStart(n, count, created)
    ensures Get(RangeTally(f, base, base + PartStart(n, count, created)), c) <= Get(RangeTally(f, base, base + n), c)
  {
    PartStartsAscend(n, count, created, count);
    PartsJoin(n, count, 0);
    RangeMonotone(f, base, base + PartStart(n, count, created), base + n, c);
  }

  // ----- Every schedule ends -----

  /** Steps thread t still needs: at most eight for each trial. */
  function Left(t: Thread): int {
    match t.pc
    case Ready => 8 * (t.end - t.next)
    case Adding(todo, reg) => 8 * (t.end - t.next - 1) + 2 * |todo| + (if reg.Empty? then 1 else 0)
  }

  lemma LeftNonNegative(f: int -> Outcome, s: State)
    requires ThreadsOk(f, s)
    ensures 0 <= Sum(s.threads, Left)
  {
    forall t <- s.threads
      ensures 0 <= Left(t)
    {
      assert ThreadOk(f, t);
    }
    SumBounds(s.threads, Left, 0, SumBoundOf(s.threads, Left));
  }

  lemma LeftStep(f: int -> Outcome, mode: SyncMode, s: State, step: Step)
    requires ThreadsOk(f, s) && Enabled(mode, s, step)
    ensures Sum(Do(f, mode, s, step).threads, Left) < Sum(s.threads, Left)
  {
    SumUpdate(s.threads, step.k, Do(f, mode, s, step).threads[step.k], Left);
    assert ThreadOk(f, s.threads[step.k]);
  }

  lemma {:induction false} LeftAlong(f: int -> Outcome, mode: SyncMode, s: State, steps: seq<Step>)
    requires ThreadsOk(f, s) && IsSchedule(f, mode, s, steps)
    ensures |steps| <= Sum(s.threads, Left) && ThreadsOk(f, After(f, mode, s, steps))
    decreases |steps|
  {
    if steps == [] {
      LeftNonNegative(f, s);
    } else {
      LeftStep(f, mode, s, steps[0]);
      ThreadStep(f, mode, s, steps[0]);
      LeftAlong(f, mode, Do(f, mode, s, steps[0]), steps[1..]);
    }
  }

  lemma {:induction false} InitLeft(base: int, n: nat, count: nat, created: nat)
    requires 0 < count && created <= count
    ensures Sum(Init(base, n, count, created).threads, Left) == 8 * PartStart(n, count, created)
  {
    PartsJoin(n, count, 0);
    if created > 0 {
      var s, init := Init(base, n, count, created), Init(base, n, count, created - 1);
      InitLeft(base, n, count, created - 1);
      PartsJoin(n, count, created - 1);
      assert s.threads == init.threads + [s.threads[created - 1]];
      SumSnoc(init.threads, s.threads[created - 1], Left);
    }
  }

  /** No interleaving takes more than eight steps for each trial. */
  lemma ThreadSchedulesAreFinite(f: int -> Outcome, mode: SyncMode, base: int, n: nat, count: nat, steps: seq<Step>)
    requires 0 < count && IsSchedule(f, mode, Init(base, n, count, count), steps)
    ensures |steps| <= 8 * n
  {
    InitOk(f, base, n, count, count);
    LeftAlong(f, mode, Init(base, n, count, count), steps);
    InitLeft(base, n, count, count);
    PartsJoin(n, count, 0);
  }

  /** A thread that is recording a trial can always take its next step. */
  lemma RecorderCanStep(mode: SyncMode, s: State, k: nat) returns (step: Step)
    requires k < |s.threads| && s.threads[k].pc.Adding?
    ensures Enabled(mode, s, step)
  {
    var pc := s.threads[k].pc;
    step := if pc.todo == [] then Finish(k) else if pc.reg.Empty? then Load(k) else Store(k);
  }

  /** No interleaving of any mode gets stuck: a schedule that cannot be continued has joined all its
      threads. */
  lemma StuckMeansJoined(f: int -> Outcome, mode: SyncMode, base: int, n: nat, count: nat, steps: seq<Step>)
    requires 0 < count && IsSchedule(f, mode, Init(base, n, count, count), steps)
    requires forall step :: !Enabled(mode, After(f, mode, Init(base, n, count, count), steps), step)
    ensures Joined(After(f, mode, Init(base, n, count, count), steps))
  {
    var s0 := Init(base, n, count, count);
    var s := After(f, mode, s0, steps);
    if mode.Mutex? {
      LockedInit(f, base, n, count, count);
      LockedAlong(f, s0, steps);
    }
    if i :| 0 <= i < |s.threads| && s.threads[i].pc.Adding? {
      var step := RecorderCanStep(mode, s, i);
      assert false;
    }
    forall i | 0 <= i < |s.threads|
      ensures s.threads[i].next >= s.threads[i].end
    {
      assert !Enabled(mode, s, Begin(i));
    }
  }

  lemma {:induction false} CanJoin(f: int -> Outcome, mode: SyncMode, s: State) returns (steps: seq<Step>)
    requires ThreadsOk(f, s) && (mode.Mutex? ==> Locked(f, s))
    ensures IsSchedule(f, mode, s, steps) && Joined(After(f, mode, s, steps))
    decreases Sum(s.threads, Left)
  {
    LeftNonNegative(f, s);
    if Joined(s) {
      return [];
    }
    var i :| 0 <= i < |s.threads| && !(s.threads[i].pc.Ready? && s.threads[i].next >= s.threads[i].end);
    var step := Begin(i);
    if k :| 0 <= k < |s.threads| && s.threads[k].pc.Adding? {
      step := RecorderCanStep(mode, s, k);
    }
    LeftStep(f, mode, s, step);
    ThreadStep(f, mode, s, step);
    if mode.Mutex? {
      LockedStep(f, s, step);
    }
    var rest := CanJoin(f, mode, Do(f, mode, s, step));
    steps := [step] + rest;
    assert steps[1..] == rest;
  }

  /** Every mode has an outcome on every input. */
  lemma OutcomeExists(f: int -> Outcome, mode: SyncMode, base: int, n: nat, count: nat) returns (r: Tally)
    requires 0 < count
    ensures IsOutcome(f, mode, base, n, count, r)
  {
    InitOk(f, base, n, count, count);
    LockedInit(f, base, n, count, count);
    var s0 := Init(base, n, count, count);
    var steps := CanJoin(f, mode, s0);
    r := Output(mode, After(f, mode, s0, steps), count);
  }
}
