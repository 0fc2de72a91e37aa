/** What the pipeline guarantees about every schedule: the main results. */
module PipelineResults {
  import opened Tallies
  import opened Checksums
  import opened Sums
  import opened Queues
  import opened Batches
  import opened Pipeline
  import opened PipelineInvariants
  import opened PipelineSafety
  import opened PipelineProgress

  // ----- The final result -----

  /** The run is marked failed exactly when some thread creation failed. */
  lemma {:induction false} FailedIffCreationFailed(p: Params, g: int -> Tally, s: State, steps: seq<Step>)
    requires IsSchedule(p, g, s, steps)
    ensures After(p, g, s, steps).failed <==> s.failed || exists i :: 0 <= i < |steps| && CreationFails(steps[i])
    decreases |steps|
  {
    if steps != [] {
      var rest := steps[1..];
      FailedIffCreationFailed(p, g, Do(p, g, s, steps[0]), rest);
      FailedByCreation(p, g, s, steps[0]);
      assert forall i :: 0 <= i < |rest| ==> rest[i] == steps[i + 1];
      assert forall i :: 1 <= i < |steps| ==> steps[i] == rest[i - 1];
    }
  }

  /** In a state that has returned without failure everything is drained and all threads have exited. */
  lemma DrainedAtReturn(p: Params, g: int -> Tally, s: State)
    requires ValidParams(p) && Inv(p, g, s) && Ended(s) && !s.failed
    ensures s.main.Returned? && s.popped == s.next == p.batches && s.prep.PrepExited?
    ensures s.tasks.items == [] && s.merges.items == []
    ensures forall i :: 0 <= i < |s.workers| ==> s.workers[i].Exited?
    ensures if p.mode.Interactive? then s.agg.AggExited? else s.agg.AggAbsent?
  {
    assert s.workers[0].Exited?;
  }

  lemma MergedOnceAtReturn(p: Params, g: int -> Tally, s: State)
    requires ValidParams(p) && Inv(p, g, s) && Ended(s) && !s.failed
    ensures s.out == MergeFirst(p.batches, g) && |s.merged| == p.batches
  {
    DrainedAtReturn(p, g, s);
    forall b: int
      ensures Occurs(s.merged, b) == if 0 <= b < p.batches then 1 else 0
    {
      MergedAtEnd(p, s, b);
    }
    MergeOrderIrrelevant(s.merged, p.batches, g);
  }

  /** `g` is what the workers compute: the tally of each batch of `create_batches`. */
  ghost predicate BatchTallies(f: int -> Outcome, trials: int, batchSize: int, p: Params, g: int -> Tally) {
    && 0 < trials && 0 < batchSize && p.batches == BatchCount(trials, batchSize)
    && forall b :: 0 <= b < p.batches ==>
         g(b) == RangeTally(f, BatchCut(trials, batchSize, b), BatchCut(trials, batchSize, b + 1))
  }

  /** Whatever the interleaving, the merge mode, and the positive thread count, queue size and batch
      size: a run that returns 0 has the counters and the checksum of the sequential loop. */
  lemma PipelineEqualsSequential(f: int -> Outcome, trials: int, batchSize: int, p: Params, g: int -> Tally,
                                 steps: seq<Step>)
    requires ValidParams(p) && BatchTallies(f, trials, batchSize, p, g)
    requires IsSchedule(p, g, Init(p), steps)
    requires Ended(After(p, g, Init(p), steps)) && ReturnCode(After(p, g, Init(p), steps)) == 0
    ensures var s := After(p, g, Init(p), steps);
      && s.out == RangeTally(f, 0, trials)
      && s.checksum == Checksum(RangeTally(f, 0, trials))
      && IsValid(s.out, trials)
  {
    var s := After(p, g, Init(p), steps);
    ReachableInv(p, g, steps);
    MergedOnceAtReturn(p, g, s);
    BatchesMergeToWhole(f, trials, batchSize, g);
    SequentialIsValid(f, trials);
  }

  lemma CountersWhenDrained(p: Params, s: State)
    requires Counters(p, s) && |s.workers| == p.threads
    requires s.popped == s.next == |s.merged| == p.batches && s.prep.PrepExited?
    requires s.tasks.items == [] && s.merges.items == []
    requires forall i :: 0 <= i < |s.workers| ==> s.workers[i].Exited?
    requires if p.mode.Interactive? then s.agg.AggExited? else s.agg.AggAbsent?
    ensures s.metrics.processed == p.batches
    ensures s.metrics.pushes == s.metrics.pops == if p.mode.Interactive? then 2 * p.batches else p.batches
    ensures s.metrics.lockWaits ==
      if p.mode.Interactive? then 4 * p.batches + p.threads + 1 else 2 * p.batches + p.threads
  {
    SumBounds(s.workers, Uncomputed, 0, 0);
    SumBounds(s.workers, ExtraEntry, 1, 1);
  }

  /** The metric counters of a successful run are the same on every schedule, apart from the number of
      waits: with B batches and T workers, B batches are processed, each queue in use sees B pushes and
      B pops, and the mutexes are entered 2B + T times (final) or 4B + T + 1 times (interactive). */
  lemma MetricsAtReturn(p: Params, g: int -> Tally, steps: seq<Step>)
    requires ValidParams(p) && IsSchedule(p, g, Init(p), steps)
    requires Ended(After(p, g, Init(p), steps)) && ReturnCode(After(p, g, Init(p), steps)) == 0
    ensures var m := After(p, g, Init(p), steps).metrics;
      var b := p.batches;
      && m.processed == b
      && m.pushes == m.pops == (if p.mode.Interactive? then 2 * b else b)
      && m.lockWaits == (if p.mode.Interactive? then 4 * b + p.threads + 1 else 2 * b + p.threads)
  {
    var s := After(p, g, Init(p), steps);
    ReachableInv(p, g, steps);
    DrainedAtReturn(p, g, s);
    MergedOnceAtReturn(p, g, s);
    CountersWhenDrained(p, s);
  }

  /** When a run has ended, failed or not, `out` is the merge of the first batches, as many as were processed,
      and its checksum is stamped unless the run ended before there was a preprocessor. */
  lemma OutAtEnd(p: Params, g: int -> Tally, steps: seq<Step>)
    requires ValidParams(p) && IsSchedule(p, g, Init(p), steps) && Ended(After(p, g, Init(p), steps))
    ensures var s := After(p, g, Init(p), steps);
      && 0 <= s.metrics.processed <= p.batches && s.out == MergeFirst(s.metrics.processed, g)
      && if s.main.Aborted? then s.metrics.processed == 0 && s.checksum == 0 else s.checksum == Checksum(s.out)
  {
    ReachableInv(p, g, steps);
    ProcessedAtEnd(p, g, After(p, g, Init(p), steps));
  }

  lemma ProcessedAtEnd(p: Params, g: int -> Tally, s: State)
    requires Sizes(p, s) && MainPhases(p, s) && MergePhases(p, s) && Places(p, s) && Data(g, s) && Counters(p, s) && Ended(s)
    ensures s.metrics.processed == s.popped <= p.batches && s.out == MergeFirst(s.popped, g)
    ensures s.main.Aborted? ==> s.popped == 0
  {
    SumBounds(s.workers, Uncomputed, 0, 0);
    forall b: int
      ensures Occurs(s.merged, b) == if 0 <= b < s.popped then 1 else 0
    {
      MergedAtEnd(p, s, b);
    }
    MergeOrderIrrelevant(s.merged, s.popped, g);
  }

  lemma MergedAtEnd(p: Params, s: State, b: int)
    requires MainPhases(p, s) && MergePhases(p, s) && Places(p, s) && Ended(s)
    ensures Occurs(s.merged, b) == if 0 <= b < s.popped then 1 else 0
  {
    assert PastTasks(s, b) == if 0 <= b < s.popped then 1 else 0;
    SumBounds(s.workers, Holds(b), 0, 0);
    assert s.merges.items == [] && Pending(s) == [] && AggHolds(s.agg, b) == 0;
  }

  /** The pass of a thread that has been woken from a wait. */
  predicate Resumes(s: State, step: Step) {
    match step
    case PrepPush(_) => s.prep.PrepWoken?
    case WorkerPop(k) => k < |s.workers| && s.workers[k].PopWoken?
    case WorkerPush(k) => k < |s.workers| && s.workers[k].PushWoken?
    case AggPop(_) => s.agg.AggWoken?
    case _ => false
  }

  function WokenPasses(p: Params, g: int -> Tally, s: State, steps: seq<Step>): nat
    requires IsSchedule(p, g, s, steps)
    decreases |steps|
  {
    if steps == [] then 0
    else (if Resumes(s, steps[0]) then 1 else 0) + WokenPasses(p, g, Do(p, g, s, steps[0]), steps[1..])
  }

  lemma CondWaitStep(p: Params, g: int -> Tally, s: State, step: Step)
    requires Enabled(p, s, step)
    ensures Do(p, g, s, step).metrics.condWaits == s.metrics.condWaits + if Resumes(s, step) then 1 else 0
  {
  }

  /** The waits counted are the queue passes that a woken thread made, spurious wake-ups included. */
  lemma {:induction false} CondWaitsAreWokenPasses(p: Params, g: int -> Tally, s: State, steps: seq<Step>)
    requires IsSchedule(p, g, s, steps)
    ensures After(p, g, s, steps).metrics.condWaits == s.metrics.condWaits + WokenPasses(p, g, s, steps)
    decreases |steps|
  {
    if steps != [] {
      CondWaitStep(p, g, s, steps[0]);
      CondWaitsAreWokenPasses(p, g, Do(p, g, s, steps[0]), steps[1..]);
    }
  }

  /** A schedule that cannot be continued other than by spurious wake-ups has ended, and it returns 0
      unless some thread creation failed. */
  lemma MaximalSchedulesEnd(p: Params, g: int -> Tally, steps: seq<Step>)
    requires ValidParams(p) && IsSchedule(p, g, Init(p), steps)
    requires forall step :: Enabled(p, After(p, g, Init(p), steps), step) ==> IsSpurious(step)
    ensures var s := After(p, g, Init(p), steps);
      Ended(s) && (ReturnCode(s) == 0 <==> forall i :: 0 <= i < |steps| ==> !CreationFails(steps[i]))
  {
    var s := After(p, g, Init(p), steps);
    ReachableInv(p, g, steps);
    if !Ended(s) {
      var step := Progress(p, s);
      assert false;
    }
    FailedIffCreationFailed(p, g, Init(p), steps);
  }

  /** Every reachable state that has not failed can still reach a return with code 0. */
  lemma SuccessStaysPossible(p: Params, g: int -> Tally, steps: seq<Step>) returns (more: seq<Step>)
    requires ValidParams(p) && IsSchedule(p, g, Init(p), steps) && !After(p, g, Init(p), steps).failed
    ensures var s := After(p, g, Init(p), steps);
      && IsSchedule(p, g, s, more)
      && Ended(After(p, g, s, more)) && ReturnCode(After(p, g, s, more)) == 0
  {
    ReachableInv(p, g, steps);
    more := CanComplete(p, g, After(p, g, Init(p), steps));
  }

  // ----- Every reachable state -----

  lemma {:induction false} ConsecutiveCount(items: seq<int>, first: int, b: int)
    requires forall i :: 0 <= i < |items| ==> items[i] == first + i
    ensures Sum(items, Is(b)) == if first <= b < first + |items| then 1 else 0
  {
    if items != [] {
      ConsecutiveCount(items[1..], first + 1, b);
    }
  }

  /** Each batch is in exactly one place: not yet pushed, dropped by a push after a failure closed the
      queue, in the task ring, in a worker's hands, in the merge ring, in the aggregator's hands, among
      the final partials, or merged. Nothing else is anywhere. */
  lemma EachBatchInOnePlace(p: Params, g: int -> Tally, steps: seq<Step>, b: int)
    requires ValidParams(p) && IsSchedule(p, g, Init(p), steps)
    ensures var s := After(p, g, Init(p), steps);
      var unpushed := if s.next <= b < p.batches then 1 else 0;
      var dropped := if s.popped + |s.tasks.items| <= b < s.next then 1 else 0;
      && unpushed + dropped + Sum(s.tasks.items, Is(b))
         + Sum(s.workers, Holds(b)) + Sum(s.merges.items, HasId(b)) + AggHolds(s.agg, b)
         + Sum(Pending(s), HasId(b)) + Occurs(s.merged, b)
         == (if 0 <= b < p.batches then 1 else 0)
      && (dropped == 1 ==> s.failed)
  {
    var s := After(p, g, Init(p), steps);
    ReachableInv(p, g, steps);
    ConsecutiveCount(s.tasks.items, s.popped, b);
    assert PastTasks(s, b) == if 0 <= b < s.popped then 1 else 0;
  }

  /** No wake-up is lost: while a queue is open, sleepers on `not_empty` imply no more items than woken
      threads still to run, and sleepers on `not_full` no more free slots. The preprocessor is the only
      thread that waits for room in the task queue and the aggregator the only one that waits for
      partials, so there a sleeper means that no thread is woken. */
  lemma NoLostWakeups(p: Params, g: int -> Tally, steps: seq<Step>)
    requires ValidParams(p) && IsSchedule(p, g, Init(p), steps)
    ensures var s := After(p, g, Init(p), steps);
      && (forall k :: 0 <= k < |s.workers| && s.workers[k].PopAsleep? ==>
            !s.tasks.closed && |s.tasks.items| <= Sum(s.workers, WokenOnPop))
      && (forall k :: 0 <= k < |s.workers| && s.workers[k].PushAsleep? ==>
            !s.merges.closed && p.capacity - |s.merges.items| <= Sum(s.workers, WokenOnPush))
      && (s.prep.PrepAsleep? ==> !s.tasks.closed && |s.tasks.items| == p.capacity)
      && (s.agg.AggAsleep? ==> !s.merges.closed && s.merges.items == [])
  {
    var s := After(p, g, Init(p), steps);
    ReachableInv(p, g, steps);
    forall k | 0 <= k < |s.workers|
      ensures s.workers[k].PopAsleep? ==> Sum(s.workers, AsleepOnPop) > 0
      ensures s.workers[k].PushAsleep? ==> Sum(s.workers, AsleepOnPush) > 0
    {
      SumAtLeast(s.workers, k, AsleepOnPop);
      SumAtLeast(s.workers, k, AsleepOnPush);
    }
  }

  /** A push into the task queue is refused only after a failed creation, and a push into the merge
      queue never is, because each close comes after the last push. */
  lemma NoPushRefused(p: Params, g: int -> Tally, steps: seq<Step>, step: Step)
    requires ValidParams(p) && IsSchedule(p, g, Init(p), steps)
    requires Enabled(p, After(p, g, Init(p), steps), step)
    ensures var s := After(p, g, Init(p), steps);
      && (step.PrepPush? && PushPass(s.tasks, s.next).1.Refused? ==> s.failed)
      && (step.WorkerPush? ==> !PushPass(s.merges, s.workers[step.k].part).1.Refused?)
  {
    var s := After(p, g, Init(p), steps);
    ReachableInv(p, g, steps);
    if step.WorkerPush? {
      MergesOpenForWorkers(p, s, step.k);
    }
  }

  lemma MergedAtMostOnce(p: Params, s: State, b: int)
    requires Sizes(p, s) && Places(p, s)
    ensures Occurs(s.merged, b) <= if 0 <= b < p.batches then 1 else 0
  {
    assert PastTasks(s, b) == if 0 <= b < s.popped then 1 else 0;
    SumBounds(s.workers, Holds(b), 0, 1);
    SumBounds(s.merges.items, HasId(b), 0, 1);
    SumBounds(Pending(s), HasId(b), 0, 1);
  }

  /** In every reachable state, failed or not, `out` is the merge of distinct batches. */
  lemma OutIsDistinctBatches(p: Params, g: int -> Tally, steps: seq<Step>)
    requires ValidParams(p) && IsSchedule(p, g, Init(p), steps)
    ensures var s := After(p, g, Init(p), steps);
      s.out == MergeAll(s.merged, g) && Distinct(s.merged) && forall b <- s.merged :: 0 <= b < p.batches
  {
    var s := After(p, g, Init(p), steps);
    ReachableInv(p, g, steps);
    forall b: int
      ensures Occurs(s.merged, b) <= if 0 <= b < p.batches then 1 else 0
    {
      MergedAtMostOnce(p, s, b);
    }
    forall b <- s.merged
      ensures 0 <= b < p.batches
    {
      OccursIn(s.merged, b);
    }
  }

  lemma {:induction false} DistinctIdsBound(parts: seq<Partial>, n: nat)
    requires forall b: int :: Sum(parts, HasId(b)) <= if 0 <= b < n then 1 else 0
    ensures |parts| <= n
  {
    if parts != [] {
      var last := parts[|parts| - 1].id;
      SumAtLeast(parts, |parts| - 1, HasId(last));
      if n == 0 {
        assert false;
      }
      if Sum(parts, HasId(n - 1)) > 0 {
        var k := SumWitness(parts, HasId(n - 1));
        var rest := parts[..k] + parts[k + 1..];
        forall b: int
          ensures Sum(rest, HasId(b)) <= if 0 <= b < n - 1 then 1 else 0
        {
          SumRemove(parts, k, HasId(b));
          assert Sum(parts, HasId(b)) <= if 0 <= b < n then 1 else 0;
        }
        DistinctIdsBound(rest, n - 1);
      } else {
        forall b: int
          ensures Sum(parts, HasId(b)) <= if 0 <= b < n - 1 then 1 else 0
        {
          assert Sum(parts, HasId(b)) <= if 0 <= b < n then 1 else 0;
        }
        DistinctIdsBound(parts, n - 1);
      }
    }
  }

  lemma AppendIndexBound(p: Params, s: State, k: nat)
    requires Phases(p, s) && Places(p, s) && Enabled(p, s, WorkerAppend(k))
    ensures |s.finals| < p.batches
  {
    MergesOpenForWorkers(p, s, k);
    var parts := s.finals + [s.workers[k].part];
    forall b: int
      ensures Sum(parts, HasId(b)) <= if 0 <= b < p.batches then 1 else 0
    {
      SumSnoc(s.finals, s.workers[k].part, HasId(b));
      SumAtLeast(s.workers, k, Holds(b));
      SumBounds(s.merges.items, HasId(b), 0, 1);
      assert PastTasks(s, b) == if 0 <= b < s.popped then 1 else 0;
    }
    DistinctIdsBound(parts, p.batches);
  }

  /** Whenever a worker appends to `final_partials`, the index it writes is below `batch_count`. */
  lemma AppendInBounds(p: Params, g: int -> Tally, steps: seq<Step>, k: nat)
    requires ValidParams(p) && IsSchedule(p, g, Init(p), steps)
    requires Enabled(p, After(p, g, Init(p), steps), WorkerAppend(k))
    ensures |After(p, g, Init(p), steps).finals| < p.batches
  {
    ReachableInv(p, g, steps);
    AppendIndexBound(p, After(p, g, Init(p), steps), k);
  }

  lemma HeldIdBound(p: Params, s: State, k: nat)
    requires Sizes(p, s) && Places(p, s) && k < |s.workers| && s.workers[k].Holding?
    ensures 0 <= s.workers[k].id < p.batches
  {
    var b := s.workers[k].id;
    SumAtLeast(s.workers, k, Holds(b));
    SumBounds(s.merges.items, HasId(b), 0, 1);
    SumBounds(Pending(s), HasId(b), 0, 1);
    assert PastTasks(s, b) == if 0 <= b < s.popped then 1 else 0;
  }

  /** The batch a worker is about to run is one of the batches. */
  lemma HeldBatchExists(p: Params, g: int -> Tally, steps: seq<Step>, k: nat)
    requires ValidParams(p) && IsSchedule(p, g, Init(p), steps)
    requires Enabled(p, After(p, g, Init(p), steps), WorkerCompute(k))
    ensures 0 <= After(p, g, Init(p), steps).workers[k].id < p.batches
  {
    ReachableInv(p, g, steps);
    HeldIdBound(p, After(p, g, Init(p), steps), k);
  }
}
