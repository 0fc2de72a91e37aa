/** The pipeline never gets stuck, and every schedule of it is finite up to spurious wake-ups. */
module PipelineProgress {
  import opened Tallies
  import opened Sums
  import opened Queues
  import opened Pipeline
  import opened PipelineInvariants
  import opened PipelineSafety

  // ----- No deadlock -----

  predicate CreationFails(step: Step) { step.MainCreate? && !step.ok }

  predicate Runnable(w: Worker) {
    w.AtPop? || w.PopWoken? || w.Holding? || w.HasPartial? || w.PushWoken?
  }

  lemma ChooseSleepers(ws: seq<Worker>) returns (pop: Choice, push: Choice)
    ensures PopSignalOk(ws, pop) && PushSignalOk(ws, push)
  {
    pop, push := NoOne, NoOne;
    if k :| 0 <= k < |ws| && ws[k].PopAsleep? {
      pop := Sleeper(k);
    }
    if k :| 0 <= k < |ws| && ws[k].PushAsleep? {
      push := Sleeper(k);
    }
  }

  lemma PrepCanStep(p: Params, s: State) returns (step: Step)
    requires TaskPhases(p, s) && (s.prep.PrepReady? || s.prep.PrepWoken?)
    ensures Enabled(p, s, step) && (step.PrepPush? || step.PrepClose?)
  {
    var pop, _ := ChooseSleepers(s.workers);
    if s.next < p.batches {
      step := PrepPush(if PushPass(s.tasks, s.next).1.Done? then pop else NoOne);
    } else {
      step := PrepClose;
    }
  }

  lemma WorkerCanStep(p: Params, s: State, k: nat) returns (step: Step)
    requires MergePhases(p, s) && k < |s.workers| && Runnable(s.workers[k])
    ensures Enabled(p, s, step) && ByWorker(step)
  {
    var w := s.workers[k];
    if w.AtPop? || w.PopWoken? {
      step := WorkerPop(k);
    } else if w.Holding? {
      step := WorkerCompute(k);
    } else if p.mode.Interactive? {
      step := WorkerPush(k);
    } else {
      step := WorkerAppend(k);
    }
  }

  lemma AggCanStep(p: Params, s: State) returns (step: Step)
    requires s.agg.AggAtPop? || s.agg.AggWoken? || s.agg.AggMerging?
    ensures Enabled(p, s, step) && (step.AggPop? || step.AggMerge?)
  {
    var _, push := ChooseSleepers(s.workers);
    if s.agg.AggMerging? {
      step := AggMerge;
    } else {
      step := AggPop(if s.merges.items != [] then push else NoOne);
    }
  }

  /** With no runnable worker nobody is woken, so by the wake-up invariant a sleeping worker means an
      empty open task queue or a full open merge queue. */
  lemma OnlySleepers(p: Params, s: State, k: nat)
    requires Sizes(p, s) && Wakeups(p, s) && k < |s.workers|
    requires forall i :: 0 <= i < |s.workers| ==> !Runnable(s.workers[i])
    ensures s.workers[k].PopAsleep? ==> !s.tasks.closed && s.tasks.items == []
    ensures s.workers[k].PushAsleep? ==> !s.merges.closed && |s.merges.items| == p.capacity
    ensures s.workers[k].PopAsleep? || s.workers[k].PushAsleep? || Gone(s.workers[k])
  {
    SumBounds(s.workers, WokenOnPop, 0, 0);
    SumBounds(s.workers, WokenOnPush, 0, 0);
    SumAtLeast(s.workers, k, AsleepOnPop);
    SumAtLeast(s.workers, k, AsleepOnPush);
  }

  /** While main waits in a join that cannot return, some other thread can run. */
  lemma JoinNotStuck(p: Params, s: State)
    requires ValidParams(p) && Phases(p, s) && Wakeups(p, s)
    requires s.main.JoinPreprocessor? || s.main.JoinWorkers? || s.main.JoinAggregator? || s.main.AbortJoin?
    requires forall i :: 0 <= i < |s.workers| ==> !Runnable(s.workers[i])
    requires s.prep.PrepAsleep? || s.prep.PrepExited? || s.prep.PrepAbsent?
    requires s.agg.AggAsleep? || s.agg.AggExited? || s.agg.AggAbsent?
    ensures Enabled(p, s, MainJoin)
  {
    if s.main.JoinPreprocessor? && s.prep.PrepAsleep? {
      // The task queue is full and open, so every worker exists and sleeps on a full merge queue.
      OnlySleepers(p, s, 0);
      assert false;
    } else if s.main.JoinWorkers? {
      OnlySleepers(p, s, s.main.k);
      assert s.tasks.closed;
    }
  }

  lemma MainCanStep(p: Params, s: State) returns (step: Step)
    requires Phases(p, s) && !Ended(s)
    requires !(s.main.JoinPreprocessor? || s.main.JoinWorkers? || s.main.JoinAggregator? || s.main.AbortJoin?)
    ensures Enabled(p, s, step) && ByMain(step) && !CreationFails(step)
  {
    match s.main
    case CreateAggregator => step := MainCreate(true);
    case CreatePreprocessor => step := MainCreate(true);
    case CreateWorkers(_) => step := MainCreate(true);
    case MergeFinals(k) => step := if k < |s.finals| then MainMerge else MainFinish;
    case _ => step := MainClose;
  }

  /** Deadlock freedom: in every state that satisfies the invariants and has not ended, a step that is
      neither a spurious wake-up nor a failing creation is enabled. */
  lemma Progress(p: Params, s: State) returns (step: Step)
    requires ValidParams(p) && Phases(p, s) && Wakeups(p, s) && !Ended(s)
    ensures Enabled(p, s, step) && !IsSpurious(step) && !CreationFails(step)
  {
    if s.prep.PrepReady? || s.prep.PrepWoken? {
      step := PrepCanStep(p, s);
    } else if k :| 0 <= k < |s.workers| && Runnable(s.workers[k]) {
      step := WorkerCanStep(p, s, k);
    } else if s.agg.AggAtPop? || s.agg.AggWoken? || s.agg.AggMerging? {
      step := AggCanStep(p, s);
    } else if s.main.JoinPreprocessor? || s.main.JoinWorkers? || s.main.JoinAggregator? || s.main.AbortJoin? {
      JoinNotStuck(p, s);
      step := MainJoin;
    } else {
      step := MainCanStep(p, s);
    }
  }

  /** When the function has returned, every thread it created has exited and nothing can happen. */
  lemma EndedIsFinal(p: Params, s: State, step: Step)
    requires Phases(p, s) && Ended(s)
    ensures !Enabled(p, s, step)
    ensures forall i :: 0 <= i < |s.workers| ==> Gone(s.workers[i])
    ensures s.prep.PrepExited? || s.prep.PrepAbsent?
    ensures s.agg.AggExited? || s.agg.AggAbsent?
  {
    if step.WorkerPop? || step.WorkerCompute? || step.WorkerPush? || step.WorkerAppend? || step.SpuriousWorker? {
      assert step.k < |s.workers| ==> Gone(s.workers[step.k]);
    }
  }

  // ----- Termination -----

  function WorkerWork(w: Worker): int {
    match w
    case Exited => 0
    case Holding(_) => 5
    case HasPartial(_) => 4
    case PushAsleep(_) => 4
    case PushWoken(_) => 4
    case _ => 1
  }

  function WorkerRank(w: Worker): int {
    if w.PopAsleep? || w.PushAsleep? then 0 else if w.PopWoken? || w.PushWoken? then 1 else 2
  }

  function PrepRank(a: Prep): int { if a.PrepAsleep? then 0 else if a.PrepWoken? then 1 else 2 }
  function AggRank(a: Aggregator): int { if a.AggAsleep? then 0 else if a.AggWoken? then 1 else 2 }

  /** How many steps main still has to take, joins and closes included, merges of final partials not. */
  function MainLeft(p: Params, m: Main): int {
    match m
    case CreateAggregator => 2 * p.threads + 9
    case CreatePreprocessor => 2 * p.threads + 8
    case CreateWorkers(k) => 2 * p.threads + 7 - k
    case CloseTasks => p.threads + 6
    case JoinPreprocessor => p.threads + 5
    case JoinWorkers(k) => p.threads + 4 - k
    case CloseMerges => 3
    case JoinAggregator => 2
    case MergeFinals(_) => 1
    case Returned => 0
    case AbortClose => 2
    case AbortJoin => 1
    case Aborted => 0
  }

  /** What remains to be done: every batch, partial and thread weighs the steps it still needs. */
  function Work(p: Params, s: State): int {
    6 * (p.batches - s.next) + 5 * |s.tasks.items| + 2 * |s.merges.items| + |Pending(s)|
    + (if s.prep.PrepExited? then 0 else 1)
    + (if s.agg.AggExited? then 0 else if s.agg.AggMerging? then 2 else 1)
    + Sum(s.workers, WorkerWork) + MainLeft(p, s.main)
  }

  /** How much waiting the threads can still fall into before the next signal. */
  function Rank(s: State): int {
    PrepRank(s.prep) + AggRank(s.agg) + Sum(s.workers, WorkerRank)
  }

  /** Each signal or broadcast comes with a unit of work, and a unit of work outweighs all ranks. */
  function Measure(p: Params, s: State): int {
    (2 * p.threads + 5) * Work(p, s) + Rank(s)
  }

  lemma WorkAndRankBounds(p: Params, s: State)
    requires Sizes(p, s) && MainPhases(p, s)
    ensures 0 <= Work(p, s) && 0 <= Rank(s) <= 2 * p.threads + 4
  {
    SumBounds(s.workers, WorkerWork, 0, 5);
    SumBounds(s.workers, WorkerRank, 0, 2);
  }

  lemma WorkUpdate(ws: seq<Worker>, k: nat, w: Worker)
    requires k < |ws|
    ensures Sum(ws[k := w], WorkerWork) == Sum(ws, WorkerWork) - WorkerWork(ws[k]) + WorkerWork(w)
    ensures Sum(ws[k := w], WorkerRank) == Sum(ws, WorkerRank) - WorkerRank(ws[k]) + WorkerRank(w)
  {
    SumUpdate(ws, k, w, WorkerWork);
    SumUpdate(ws, k, w, WorkerRank);
  }

  lemma WorkBroadcast(ws: seq<Worker>)
    ensures Sum(WakePoppers(ws), WorkerWork) == Sum(WakePushers(ws), WorkerWork) == Sum(ws, WorkerWork)
  {
    SumPointwise(WakePoppers(ws), ws, WorkerWork, WorkerWork);
    SumPointwise(WakePushers(ws), ws, WorkerWork, WorkerWork);
  }

  /** The step only puts its thread to sleep. */
  predicate FallsAsleep(s: State, step: Step) {
    match step
    case PrepPush(_) => PushPass(s.tasks, s.next).1.Waits?
    case WorkerPop(_) => PopPass(s.tasks).1.Waits?
    case WorkerPush(k) =>
      k < |s.workers| && (s.workers[k].HasPartial? || s.workers[k].PushWoken?) &&
      PushPass(s.merges, s.workers[k].part).1.Waits?
    case AggPop(_) => PopPass(s.merges).1.Waits?
    case _ => false
  }

  lemma WorkByCreate(p: Params, g: int -> Tally, s: State, step: Step)
    requires Phases(p, s) && Enabled(p, s, step) && step.MainCreate?
    ensures Work(p, Do(p, g, s, step)) < Work(p, s)
  {
    if s.main.CreateWorkers? {
      WorkUpdate(s.workers, s.main.k, AtPop);
    }
  }

  lemma WorkByClose(p: Params, g: int -> Tally, s: State, step: Step)
    requires Enabled(p, s, step) && step.MainClose?
    ensures Work(p, Do(p, g, s, step)) < Work(p, s)
  {
    WorkBroadcast(s.workers);
  }

  lemma WorkByJoin(p: Params, g: int -> Tally, s: State, step: Step)
    requires Sizes(p, s) && MainPhases(p, s) && Enabled(p, s, step) && step.MainJoin?
    ensures Work(p, Do(p, g, s, step)) < Work(p, s)
  {
    assert Pending(Do(p, g, s, step)) == Pending(s);
  }

  lemma WorkByMerge(p: Params, g: int -> Tally, s: State, step: Step)
    requires Enabled(p, s, step) && (step.MainMerge? || step.MainFinish?)
    ensures Work(p, Do(p, g, s, step)) < Work(p, s)
  {
    var t := Do(p, g, s, step);
    assert |Pending(t)| == |Pending(s)| - if step.MainMerge? then 1 else 0;
  }

  lemma WorkByPop(p: Params, g: int -> Tally, s: State, step: Step)
    requires Sizes(p, s) && Enabled(p, s, step) && (step.WorkerPop? || step.WorkerCompute?)
    ensures var t := Do(p, g, s, step);
      if FallsAsleep(s, step) then Work(p, t) == Work(p, s) && Rank(t) < Rank(s) else Work(p, t) < Work(p, s)
  {
    var t := Do(p, g, s, step);
    assert t.merges == s.merges && t.agg == s.agg && Pending(t) == Pending(s);
    WorkUpdate(s.workers, step.k, t.workers[step.k]);
  }

  lemma WorkByPush(p: Params, g: int -> Tally, s: State, step: Step)
    requires !s.merges.closed && Enabled(p, s, step) && step.WorkerPush?
    ensures var t := Do(p, g, s, step);
      if FallsAsleep(s, step) then Work(p, t) == Work(p, s) && Rank(t) < Rank(s) else Work(p, t) < Work(p, s)
  {
    var t := Do(p, g, s, step);
    assert t.tasks == s.tasks && t.prep == s.prep && t.next == s.next && Pending(t) == Pending(s);
    WorkUpdate(s.workers, step.k, t.workers[step.k]);
  }

  lemma WorkByAppend(p: Params, g: int -> Tally, s: State, step: Step)
    requires Between(2, s.main, 5) && Enabled(p, s, step) && step.WorkerAppend?
    ensures Work(p, Do(p, g, s, step)) < Work(p, s)
  {
    WorkUpdate(s.workers, step.k, AtPop);
  }

  lemma WorkByPrep(p: Params, g: int -> Tally, s: State, step: Step)
    requires Sizes(p, s) && Enabled(p, s, step) && (step.PrepPush? || step.PrepClose?)
    ensures var t := Do(p, g, s, step);
      if FallsAsleep(s, step) then Work(p, t) == Work(p, s) && Rank(t) < Rank(s) else Work(p, t) < Work(p, s)
  {
    WorkBroadcast(s.workers);
    if step.PrepPush? && step.wake.Sleeper? {
      WorkUpdate(s.workers, step.wake.k, Wake(s.workers[step.wake.k]));
    }
  }

  lemma WorkByAgg(p: Params, g: int -> Tally, s: State, step: Step)
    requires Sizes(p, s) && Enabled(p, s, step) && (step.AggPop? || step.AggMerge?)
    ensures var t := Do(p, g, s, step);
      if FallsAsleep(s, step) then Work(p, t) == Work(p, s) && Rank(t) < Rank(s) else Work(p, t) < Work(p, s)
  {
    if step.AggPop? && step.wake.Sleeper? {
      WorkUpdate(s.workers, step.wake.k, Wake(s.workers[step.wake.k]));
    }
  }

  lemma WorkBySpurious(p: Params, g: int -> Tally, s: State, step: Step)
    requires Enabled(p, s, step) && IsSpurious(step)
    ensures var t := Do(p, g, s, step); Work(p, t) == Work(p, s) && Rank(t) == Rank(s) + 1
  {
    if step.SpuriousWorker? {
      WorkUpdate(s.workers, step.k, Wake(s.workers[step.k]));
    }
  }

  lemma LexDrops(unit: int, w: int, r: int, w': int, r': int)
    requires 0 <= r && 0 <= r' < unit && w' < w
    ensures unit * w' + r' < unit * w + r
  {
    var d := w - w';
    assert w == w' + d && unit * (w' + d) == unit * w' + unit * d;
    assert unit * (d - 1) >= 0 && unit * d == unit * (d - 1) + unit;
  }

  /** Every step lowers the measure, except that a spurious wake-up raises it by one. */
  lemma MeasureStep(p: Params, g: int -> Tally, s: State, step: Step)
    requires ValidParams(p) && Phases(p, s) && Enabled(p, s, step)
    ensures var t := Do(p, g, s, step);
      if IsSpurious(step) then Measure(p, t) == Measure(p, s) + 1 else Measure(p, t) < Measure(p, s)
  {
    var t := Do(p, g, s, step);
    PhasesKept(p, g, s, step);
    WorkAndRankBounds(p, s);
    WorkAndRankBounds(p, t);
    if IsSpurious(step) {
      WorkBySpurious(p, g, s, step);
    } else {
      if step.MainCreate? {
        WorkByCreate(p, g, s, step);
      } else if step.MainClose? {
        WorkByClose(p, g, s, step);
      } else if step.MainJoin? {
        WorkByJoin(p, g, s, step);
      } else if ByMain(step) {
        WorkByMerge(p, g, s, step);
      } else if step.WorkerPop? || step.WorkerCompute? {
        WorkByPop(p, g, s, step);
      } else if ByWorker(step) {
        MergesOpenForWorkers(p, s, step.k);
        if step.WorkerPush? {
          WorkByPush(p, g, s, step);
        } else {
          WorkByAppend(p, g, s, step);
        }
      } else if step.PrepPush? || step.PrepClose? {
        WorkByPrep(p, g, s, step);
      } else {
        WorkByAgg(p, g, s, step);
      }
      if Work(p, t) < Work(p, s) {
        LexDrops(2 * p.threads + 5, Work(p, s), Rank(s), Work(p, t), Rank(t));
      }
    }
  }

  function Spurious(steps: seq<Step>): nat {
    if steps == [] then 0 else (if IsSpurious(steps[0]) then 1 else 0) + Spurious(steps[1..])
  }

  lemma {:induction false} MeasureAlong(p: Params, g: int -> Tally, s: State, steps: seq<Step>)
    requires ValidParams(p) && Phases(p, s) && IsSchedule(p, g, s, steps)
    ensures |steps| <= Measure(p, s) + 2 * Spurious(steps)
    decreases |steps|
  {
    if steps == [] {
      WorkAndRankBounds(p, s);
      assert (2 * p.threads + 5) * Work(p, s) >= 0;
    } else {
      MeasureStep(p, g, s, steps[0]);
      PhasesKept(p, g, s, steps[0]);
      MeasureAlong(p, g, Do(p, g, s, steps[0]), steps[1..]);
    }
  }

  /** The length of every schedule, whatever thread creation fails, is bounded by a fixed number that
      depends only on the numbers of batches and threads, plus two steps for each spurious wake-up. */
  lemma SchedulesAreFinite(p: Params, g: int -> Tally, steps: seq<Step>)
    requires ValidParams(p) && IsSchedule(p, g, Init(p), steps)
    ensures |steps| <= (2 * p.threads + 5) * (6 * p.batches + 3 * p.threads + 12) + 2 * Spurious(steps)
  {
    var s := Init(p);
    InvInitially(p, g);
    MeasureAlong(p, g, s, steps);
    SumBounds(s.workers, WorkerWork, 1, 1);
    WorkAndRankBounds(p, s);
    assert Work(p, s) <= 6 * p.batches + 3 * p.threads + 11;
    LexDrops(2 * p.threads + 5, 6 * p.batches + 3 * p.threads + 12, 0, Work(p, s), Rank(s));
  }

  lemma FailedByCreation(p: Params, g: int -> Tally, s: State, step: Step)
    requires Enabled(p, s, step)
    ensures Do(p, g, s, step).failed <==> s.failed || CreationFails(step)
  {
  }

  /** From every state that satisfies the invariants the run can be completed without spurious wake-ups
      and without a failing creation. */
  lemma {:induction false} CanComplete(p: Params, g: int -> Tally, s: State) returns (steps: seq<Step>)
    requires ValidParams(p) && Inv(p, g, s)
    ensures IsSchedule(p, g, s, steps) && Ended(After(p, g, s, steps))
    ensures After(p, g, s, steps).failed == s.failed && Spurious(steps) == 0
    decreases MeasureNat(p, s)
  {
    if Ended(s) {
      steps := [];
    } else {
      var step := Progress(p, s);
      var t := Do(p, g, s, step);
      InvKept(p, g, s, step);
      MeasureStep(p, g, s, step);
      FailedByCreation(p, g, s, step);
      MeasureIsNat(p, s);
      MeasureIsNat(p, t);
      var rest := CanComplete(p, g, t);
      steps := [step] + rest;
      assert steps[1..] == rest;
    }
  }

  ghost function MeasureNat(p: Params, s: State): nat { if Measure(p, s) < 0 then 0 else Measure(p, s) }

  lemma MeasureIsNat(p: Params, s: State)
    requires Sizes(p, s) && MainPhases(p, s)
    ensures MeasureNat(p, s) == Measure(p, s)
  {
    WorkAndRankBounds(p, s);
    assert (2 * p.threads + 5) * Work(p, s) >= 0;
  }
}
