/** Thread mode on mutable state: the steps of module ThreadMode carried out in place on the shared record,
    and what main does before and after.

    Source: run_thread_mode_metrics (src/thread_mode.c) and the thread group of a hybrid child
    (src/hybrid_mode.c). `steps` is the order the scheduler chooses, arbitrary up to being possible. */
module ThreadModeRun {
  import opened Words
  import opened Partitions
  import opened Tallies
  import opened Checksums
  import opened Results
  import opened ThreadMode
  import opened ThreadModeProofs

  class Group {
    const f: int -> Outcome
    const mode: SyncMode
    const shared: Result
    const threads: array<Thread>
    var holder: Holder
    var lockWaits: int

    ghost predicate Valid()
      reads this, shared
    {
      shared.Valid() && (threads as object) != shared.histogram
    }

    ghost function Abstract(): State
      requires Valid()
      reads this, shared, shared.histogram, threads
    {
      State(threads[..], shared.Counters(), holder, lockWaits)
    }

    /** Splits the trials [base, base + n) among `count` threads and starts the first `created`. */
    constructor (f: int -> Outcome, mode: SyncMode, base: int, n: nat, count: nat, created: nat, shared: Result)
      requires 0 < count && created <= count && shared.Valid() && shared.Counters() == ZERO
      ensures Valid() && Abstract() == Init(base, n, count, created)
      ensures this.f == f && this.mode == mode && this.shared == shared && fresh(threads)
    {
      this.f, this.mode, this.shared := f, mode, shared;
      holder, lockWaits := Free, 0;
      var ranges := new Thread[created](_ => Thread(0, 0, 0, ZERO, Ready));
      for i := 0 to created
        invariant forall k :: 0 <= k < i ==> ranges[k] == Init(base, n, count, created).threads[k]
      {
        var each, rem := n / count, n % count;
        var start := base + i * each + (if i < rem then i else rem);
        ranges[i] := Thread(start, start, start + each + (if i < rem then 1 else 0), ZERO, Ready);
      }
      threads := ranges;
      new;
      assert threads[..] == Init(base, n, count, created).threads;
    }

    method Take(step: Step)
      requires Valid() && Enabled(mode, Abstract(), step)
      modifies this, threads, shared, shared.histogram
      ensures Valid() && Abstract() == Do(f, mode, old(Abstract()), step)
      ensures shared.checksum == old(shared.checksum)
    {
      var k := step.k;
      var t := threads[k];
      match step
      case Begin(_) =>
        var o := f(t.next);
        if mode.Reduce? {
          threads[k] := t.(local := AddTrial(t.local, o), next := t.next + 1);
        } else {
          if mode.Mutex? {
            holder, lockWaits := HeldBy(k), lockWaits + 1;
          }
          threads[k] := t.(pc := Adding(Touched(o), Empty));
        }
      case Load(_) =>
        var v := shared.ReadCell(t.pc.todo[0]);
        threads[k] := t.(pc := t.pc.(reg := Loaded(v)));
      case Store(_) =>
        shared.WriteCell(t.pc.todo[0], t.pc.reg.v + 1);
        threads[k] := t.(pc := Adding(t.pc.todo[1..], Empty));
      case Finish(_) =>
        threads[k] := t.(next := t.next + 1, pc := Ready);
        if mode.Mutex? {
          holder := Free;
        }
    }
  }

  method RunSchedule(group: Group, steps: seq<Step>)
    requires group.Valid() && IsSchedule(group.f, group.mode, group.Abstract(), steps)
    modifies group, group.threads, group.shared, group.shared.histogram
    ensures group.Valid() && group.Abstract() == After(group.f, group.mode, old(group.Abstract()), steps)
  {
    ghost var end := After(group.f, group.mode, group.Abstract(), steps);
    assert steps[0..] == steps;
    for i := 0 to |steps|
      invariant group.Valid() && IsSchedule(group.f, group.mode, group.Abstract(), steps[i..])
      invariant After(group.f, group.mode, group.Abstract(), steps[i..]) == end
    {
      assert steps[i..][1..] == steps[i + 1..];
      group.Take(steps[i]);
    }
  }

  method MergeLocalsInto(threads: seq<Thread>, out: Result)
    requires out.Valid()
    modifies out, out.histogram
    ensures out.Counters() == Add(old(out.Counters()), MergeLocals(threads))
  {
    ghost var before := out.Counters();
    AddZero(before);
    for i := 0 to |threads|
      invariant out.Counters() == Add(before, MergeLocals(threads[..i]))
    {
      var local := new Result();
      local.Load(Record(threads[i].local, 0));
      assert threads[..i + 1][..i] == threads[..i];
      AddAssociates(before, MergeLocals(threads[..i]), threads[i].local);
      out.Merge(local);
    }
    assert threads[..|threads|] == threads;
  }

  /** From the joins to the return. `failed` says that a thread could not be created or joined. */
  method FinishThreadMode(mode: SyncMode, threads: seq<Thread>, failed: bool, trials: int, out: Result)
    returns (rc: int)
    requires out.Valid()
    modifies out, out.histogram
    ensures rc == if failed then -1 else 0
    ensures out.Counters() == if mode.Reduce? && !failed then MergeLocals(threads) else old(out.Counters())
    ensures out.checksum == Checksum(out.Counters())
  {
    if !failed && mode.Reduce? {
      out.Init();
      MergeLocalsInto(threads, out);
      AddZero(MergeLocals(threads));
    }
    var _ := Finalize(out, trials);
    rc := if failed then -1 else 0;
  }

  /** The interleaving `steps` of the created threads runs until all of them can be joined. */
  ghost predicate IsRun(f: int -> Outcome, mode: SyncMode, base: int, n: nat, count: nat, created: nat, steps: seq<Step>)
    requires 0 < count && created <= count
  {
    && IsSchedule(f, mode, Init(base, n, count, created), steps)
    && Joined(After(f, mode, Init(base, n, count, created), steps))
  }

  lemma RunHasOutcome(f: int -> Outcome, mode: SyncMode, base: int, n: nat, count: nat, created: nat, steps: seq<Step>)
    requires 0 < count && created <= count && IsRun(f, mode, base, n, count, created, steps)
    ensures var s := After(f, mode, Init(base, n, count, created), steps);
      && |s.threads| == created
      && (created == count ==> IsOutcome(f, mode, base, n, count, Output(mode, s, count)))
      && (mode.Reduce? ==> s.shared == ZERO)
  {
    RangesAlong(f, mode, Init(base, n, count, created), steps);
    if mode.Reduce? {
      InitOk(f, base, n, count, created);
      ReduceKeepsShared(f, Init(base, n, count, created), steps);
    }
  }

  /** The counters that main finalises. */
  function Final(mode: SyncMode, s: State, count: nat, failed: bool): Tally {
    if failed then s.shared else Output(mode, s, count)
  }

  lemma FinalNeverOvercounts(f: int -> Outcome, mode: SyncMode, lo: int, n: nat, hi: int, count: nat, created: nat,
                             joined: bool, steps: seq<Step>, r: Tally)
    requires hi == lo + n && 0 < count && created <= count
    requires IsSchedule(f, mode, Init(lo, n, count, created), steps)
    requires joined ==> IsRun(f, mode, lo, n, count, created, steps)
    requires r == Final(mode, After(f, mode, Init(lo, n, count, created), steps), count, created < count || !joined)
    ensures UndercountsRange(r, f, lo, hi)
  {
    SharedNeverOvercounts(f, mode, lo, n, count, created, steps);
    if joined && created == count {
      RunHasOutcome(f, mode, lo, n, count, created, steps);
      OutcomeUndercounts(f, mode, lo, n, count, r);
    }
  }

  /** What is in `out` when only the first `created` threads could be created and all of them were joined: with
      mutex the trials of their parts, one lock for each; with reduce nothing, because the locals are not
      merged then. */
  ghost predicate LeftByCreated(f: int -> Outcome, mode: SyncMode, trials: nat, count: nat, created: nat, r: Tally,
                                lockWaits: int)
    requires 0 < count
  {
    && (mode.Mutex? ==>
          && r == RangeTally(f, 0, PartStart(trials, count, created))
          && lockWaits == PartStart(trials, count, created))
    && (mode.Reduce? ==> r == ZERO)
  }

  lemma CreatedLeave(f: int -> Outcome, mode: SyncMode, trials: nat, count: nat, created: nat, steps: seq<Step>,
                     r: Tally, lockWaits: int)
    requires 0 < count && created < count && IsRun(f, mode, 0, trials, count, created, steps)
    requires var s := After(f, mode, Init(0, trials, count, created), steps); r == s.shared && lockWaits == s.lockWaits
    ensures LeftByCreated(f, mode, trials, count, created, r, lockWaits)
  {
    RunHasOutcome(f, mode, 0, trials, count, created, steps);
    if mode.Mutex? {
      MutexOfCreated(f, 0, trials, count, created, steps);
    }
  }

  /** Thread mode from its call to its return, on an arbitrary interleaving: it returns 0 exactly when all
      threads were created and joined. Then, with reduce or mutex, `out` is the sequential result, and in
      every mode the mode check is exact. The mutex is counted once for each trial begun in mutex mode and
      never in the other modes. In every mode, and also when the mode fails after its guards, no counter
      exceeds its sequential value. When a join fails, `steps` is what the threads have done when main stops
      waiting. */
  method RunThreadMode(f: int -> Outcome, mode: SyncMode, trials: int, timeSteps: int, count: int,
                       created: nat, joined: bool, steps: seq<Step>, out: Result) returns (rc: int, lockWaits: int)
    requires out.Valid()
    requires 0 < trials && 0 < timeSteps && 0 < count ==>
      && created <= count && IsSchedule(f, mode, Init(0, trials, count, created), steps)
      && (joined ==> IsRun(f, mode, 0, trials, count, created, steps))
    modifies out, out.histogram
    ensures rc == 0 || rc == -1
    ensures rc == 0 <==> 0 < trials && 0 < timeSteps && 0 < count && created == count && joined
    ensures rc == 0 && !mode.Nosync? ==> out.IsSequentialResult(f, trials) && IsValid(out.Counters(), trials)
    ensures rc == 0 && mode.Mutex? ==> lockWaits == trials
    ensures lockWaits == if mode.Mutex? && 0 < trials && 0 < timeSteps && 0 < count then Begins(steps) else 0
    ensures 0 < trials && 0 < timeSteps && 0 < count && created < count && joined ==>
      LeftByCreated(f, mode, trials, count, created, out.Counters(), lockWaits)
    ensures !(0 < trials && 0 < timeSteps && 0 < count) ==>
      out.Counters() == old(out.Counters()) && out.checksum == old(out.checksum)
    ensures 0 < trials && 0 < timeSteps && 0 < count ==>
      UndercountsRange(out.Counters(), f, 0, trials) && out.checksum == Checksum(out.Counters())
    ensures rc == 0 && trials <= LONG_MAX ==>
      (IsValid(out.Counters(), trials) && out.checksum == Checksum(RangeTally(f, 0, trials))
       <==> out.Counters() == RangeTally(f, 0, trials))
  {
    lockWaits := 0;
    if trials <= 0 || timeSteps <= 0 || count <= 0 {
      return -1, lockWaits;
    }
    rc, lockWaits := RunThreads(f, mode, trials, count, created, joined, steps, out);
    FinalNeverOvercounts(f, mode, 0, trials, trials, count, created, joined, steps, out.Counters());
    LockWaitsCountBegins(f, mode, Init(0, trials, count, created), steps);
    if rc == 0 {
      FinalIsExact(f, mode, trials, count, steps, out.Counters(), out.checksum, lockWaits);
    } else if joined {
      CreatedLeave(f, mode, trials, count, created, steps, out.Counters(), lockWaits);
    }
  }

  /** The part of thread mode behind its guards. */
  method RunThreads(f: int -> Outcome, mode: SyncMode, trials: nat, count: nat, created: nat, joined: bool,
                    steps: seq<Step>, out: Result) returns (rc: int, lockWaits: int)
    requires out.Valid() && 0 < count && created <= count
    requires IsSchedule(f, mode, Init(0, trials, count, created), steps)
    modifies out, out.histogram
    ensures rc == if created < count || !joined then -1 else 0
    ensures var s := After(f, mode, Init(0, trials, count, created), steps);
      out.Counters() == Final(mode, s, count, created < count || !joined) && lockWaits == s.lockWaits
    ensures out.checksum == Checksum(out.Counters())
  {
    out.Init();
    var group := new Group(f, mode, 0, trials, count, created, out);
    RunSchedule(group, steps);
    RangesAlong(f, mode, Init(0, trials, count, created), steps);
    lockWaits := group.lockWaits;
    rc := FinishThreadMode(mode, group.threads[..], created < count || !joined, trials, out);
  }

  lemma FinalIsExact(f: int -> Outcome, mode: SyncMode, trials: nat, count: nat, steps: seq<Step>, r: Tally, hash: Word64,
                     lockWaits: int)
    requires 0 < trials && 0 < count && IsRun(f, mode, 0, trials, count, count, steps)
    requires var s := After(f, mode, Init(0, trials, count, count), steps);
      r == Final(mode, s, count, false) && hash == Checksum(r) && lockWaits == s.lockWaits
    ensures var q := RangeTally(f, 0, trials);
      && (!mode.Nosync? ==> r == q && hash == Checksum(q) && IsValid(r, trials))
      && (mode.Mutex? ==> lockWaits == trials)
      && (trials <= LONG_MAX ==> (IsValid(r, trials) && hash == Checksum(q) <==> r == q))
  {
    RunHasOutcome(f, mode, 0, trials, count, count, steps);
    OutcomeIsExact(f, mode, trials, count, r);
    if mode.Mutex? {
      MutexEqualsSequential(f, 0, trials, count, steps);
    }
  }

  lemma OutcomeIsExact(f: int -> Outcome, mode: SyncMode, trials: nat, count: nat, r: Tally)
    requires 0 < trials && 0 < count && IsOutcome(f, mode, 0, trials, count, r)
    ensures var q := RangeTally(f, 0, trials);
      && IsValid(q, trials) && Undercounts(r, q)
      && (!mode.Nosync? ==> r == q)
      && (trials <= LONG_MAX ==> (IsValid(r, trials) && Checksum(r) == Checksum(q) <==> r == q))
  {
    var q := RangeTally(f, 0, trials);
    SequentialIsValid(f, trials);
    OutcomeUndercounts(f, mode, 0, trials, count, r);
    if trials <= LONG_MAX {
      ModeCheckOfUndercount(r, q, trials);
    }
    if !mode.Nosync? {
      NormalModesAreSequential(f, mode, 0, trials, count, r);
    }
  }

  /** The thread group of a hybrid child on its part of the trials, `trials` of them from index `start`. With
      reduce the locals are merged into `out` without clearing it first: the threads have left it at zero. */
  method RunThreadGroup(f: int -> Outcome, mode: SyncMode, start: int, trials: nat, count: nat, created: nat,
                        steps: seq<Step>, out: Result) returns (rc: int)
    requires out.Valid() && 0 < count && created <= count
    requires IsRun(f, mode, start, trials, count, created, steps)
    modifies out, out.histogram
    ensures rc == if created < count then -1 else 0
    ensures out.Counters() == Final(mode, After(f, mode, Init(start, trials, count, created), steps), count, created < count)
    ensures out.checksum == Checksum(out.Counters())
  {
    out.Init();
    var group := new Group(f, mode, start, trials, count, created, out);
    RunSchedule(group, steps);
    ghost var s := group.Abstract();
    RunHasOutcome(f, mode, start, trials, count, created, steps);
    var failed := created < count;
    if !failed && mode.Reduce? {
      MergeLocalsInto(group.threads[..], out);
      AddZero(MergeLocals(s.threads));
    }
    out.StampChecksum();
    rc := if failed then -1 else 0;
  }
}
