/** Every reachable state of the pipeline satisfies the invariants. */
module PipelineSafety {
  import opened Tallies
  import opened Sums
  import opened Queues
  import opened Pipeline
  import opened PipelineInvariants

  predicate ByMain(step: Step) {
    step.MainCreate? || step.MainClose? || step.MainJoin? || step.MainMerge? || step.MainFinish?
  }

  predicate ByWorker(step: Step) {
    step.WorkerPop? || step.WorkerCompute? || step.WorkerPush? || step.WorkerAppend?
  }

  // ----- Join and close order -----

  /** What a step of any thread but main does to the fields that the order of main depends on. */
  ghost predicate ThreadFrame(s: State, t: State) {
    && t.main == s.main && t.failed == s.failed && |t.finals| >= |s.finals|
    && |t.workers| == |s.workers|
    && (forall i :: 0 <= i < |s.workers| ==>
          && (t.workers[i].Absent? <==> s.workers[i].Absent?)
          && (Gone(s.workers[i]) ==> Gone(t.workers[i])))
    && (t.prep.PrepAbsent? <==> s.prep.PrepAbsent?)
    && (s.prep.PrepExited? ==> t.prep.PrepExited?)
    && (NothingYet(s) ==> NothingYet(t))
  }

  lemma ThreadSteps(p: Params, g: int -> Tally, s: State, step: Step)
    requires Sizes(p, s) && Enabled(p, s, step) && !ByMain(step)
    ensures ThreadFrame(s, Do(p, g, s, step))
  {
  }

  lemma MainPhasesFramed(p: Params, s: State, t: State)
    requires Sizes(p, s) && MainPhases(p, s) && ThreadFrame(s, t)
    ensures MainPhases(p, t)
  {
  }

  lemma MainPhasesByCreate(p: Params, g: int -> Tally, s: State, step: Step)
    requires ValidParams(p) && Phases(p, s) && Enabled(p, s, step) && step.MainCreate?
    ensures MainPhases(p, Do(p, g, s, step))
  {
  }

  lemma MainPhasesByJoin(p: Params, g: int -> Tally, s: State, step: Step)
    requires ValidParams(p) && Phases(p, s) && Enabled(p, s, step) && step.MainJoin?
    ensures MainPhases(p, Do(p, g, s, step))
  {
  }

  lemma MainPhasesByMain(p: Params, g: int -> Tally, s: State, step: Step)
    requires ValidParams(p) && Phases(p, s) && Enabled(p, s, step)
    requires step.MainClose? || step.MainMerge? || step.MainFinish?
    ensures MainPhases(p, Do(p, g, s, step))
  {
  }

  lemma SizesKept(p: Params, g: int -> Tally, s: State, step: Step)
    requires ValidParams(p) && Phases(p, s) && Enabled(p, s, step)
    ensures Sizes(p, Do(p, g, s, step))
  {
  }

  lemma FailuresByMain(p: Params, g: int -> Tally, s: State, step: Step)
    requires Failures(s) && Enabled(p, s, step) && ByMain(step)
    ensures Failures(Do(p, g, s, step))
  {
  }

  lemma FailuresByThreads(p: Params, g: int -> Tally, s: State, step: Step)
    requires Failures(s) && Enabled(p, s, step) && !ByMain(step)
    ensures Failures(Do(p, g, s, step))
  {
  }

  lemma TaskPhasesByMain(p: Params, g: int -> Tally, s: State, step: Step)
    requires ValidParams(p) && Phases(p, s) && Enabled(p, s, step) && ByMain(step)
    ensures TaskPhases(p, Do(p, g, s, step))
  {
  }

  lemma TaskPhasesByWorkers(p: Params, g: int -> Tally, s: State, step: Step)
    requires ValidParams(p) && Phases(p, s) && Enabled(p, s, step) && ByWorker(step)
    ensures TaskPhases(p, Do(p, g, s, step))
  {
  }

  lemma TaskPhasesByThreads(p: Params, g: int -> Tally, s: State, step: Step)
    requires ValidParams(p) && Phases(p, s) && Enabled(p, s, step) && !ByMain(step) && !ByWorker(step)
    ensures TaskPhases(p, Do(p, g, s, step))
  {
  }

  lemma MergePhasesByJoin(p: Params, g: int -> Tally, s: State, step: Step)
    requires ValidParams(p) && Phases(p, s) && Enabled(p, s, step) && step.MainJoin?
    ensures MergePhases(p, Do(p, g, s, step))
  {
  }

  lemma MergePhasesByMain(p: Params, g: int -> Tally, s: State, step: Step)
    requires ValidParams(p) && Phases(p, s) && Enabled(p, s, step) && ByMain(step) && !step.MainJoin?
    ensures MergePhases(p, Do(p, g, s, step))
  {
  }

  lemma MergePhasesByWorkers(p: Params, g: int -> Tally, s: State, step: Step)
    requires ValidParams(p) && Phases(p, s) && Enabled(p, s, step) && ByWorker(step)
    ensures MergePhases(p, Do(p, g, s, step))
  {
  }

  lemma MergePhasesByThreads(p: Params, g: int -> Tally, s: State, step: Step)
    requires ValidParams(p) && Phases(p, s) && Enabled(p, s, step) && !ByMain(step) && !ByWorker(step)
    ensures MergePhases(p, Do(p, g, s, step))
  {
  }

  lemma PhasesKept(p: Params, g: int -> Tally, s: State, step: Step)
    requires ValidParams(p) && Phases(p, s) && Enabled(p, s, step)
    ensures Phases(p, Do(p, g, s, step))
  {
    SizesKept(p, g, s, step);
    if ByMain(step) {
      FailuresByMain(p, g, s, step);
      if step.MainJoin? {
        MainPhasesByJoin(p, g, s, step);
        MergePhasesByJoin(p, g, s, step);
      } else {
        if step.MainCreate? {
          MainPhasesByCreate(p, g, s, step);
        } else {
          MainPhasesByMain(p, g, s, step);
        }
        MergePhasesByMain(p, g, s, step);
      }
      TaskPhasesByMain(p, g, s, step);
    } else {
      FailuresByThreads(p, g, s, step);
      ThreadSteps(p, g, s, step);
      MainPhasesFramed(p, s, Do(p, g, s, step));
      if ByWorker(step) {
        TaskPhasesByWorkers(p, g, s, step);
        MergePhasesByWorkers(p, g, s, step);
      } else {
        TaskPhasesByThreads(p, g, s, step);
        MergePhasesByThreads(p, g, s, step);
      }
    }
  }

  // ----- Wake-ups -----

  lemma SleepersNonNegative(ws: seq<Worker>)
    ensures 0 <= Sum(ws, AsleepOnPop) && 0 <= Sum(ws, WokenOnPop)
    ensures 0 <= Sum(ws, AsleepOnPush) && 0 <= Sum(ws, WokenOnPush)
  {
    SumBounds(ws, AsleepOnPop, 0, 1);
    SumBounds(ws, WokenOnPop, 0, 1);
    SumBounds(ws, AsleepOnPush, 0, 1);
    SumBounds(ws, WokenOnPush, 0, 1);
  }

  lemma SleepersUpdate(ws: seq<Worker>, k: nat, w: Worker)
    requires k < |ws|
    ensures Sum(ws[k := w], AsleepOnPop) == Sum(ws, AsleepOnPop) - AsleepOnPop(ws[k]) + AsleepOnPop(w)
    ensures Sum(ws[k := w], WokenOnPop) == Sum(ws, WokenOnPop) - WokenOnPop(ws[k]) + WokenOnPop(w)
    ensures Sum(ws[k := w], AsleepOnPush) == Sum(ws, AsleepOnPush) - AsleepOnPush(ws[k]) + AsleepOnPush(w)
    ensures Sum(ws[k := w], WokenOnPush) == Sum(ws, WokenOnPush) - WokenOnPush(ws[k]) + WokenOnPush(w)
  {
    SumUpdate(ws, k, w, AsleepOnPop);
    SumUpdate(ws, k, w, WokenOnPop);
    SumUpdate(ws, k, w, AsleepOnPush);
    SumUpdate(ws, k, w, WokenOnPush);
  }

  /** A signal on `not_empty` of the task queue turns one sleeper into a woken thread if there is one. */
  lemma SleepersSignalPop(ws: seq<Worker>, wake: Choice)
    requires PopSignalOk(ws, wake)
    ensures var n := if wake.Sleeper? then 1 else 0;
      && Sum(Signal(ws, wake), AsleepOnPop) == Sum(ws, AsleepOnPop) - n
      && Sum(Signal(ws, wake), WokenOnPop) == Sum(ws, WokenOnPop) + n
      && Sum(Signal(ws, wake), AsleepOnPush) == Sum(ws, AsleepOnPush)
      && Sum(Signal(ws, wake), WokenOnPush) == Sum(ws, WokenOnPush)
      && (n == 0 ==> Sum(ws, AsleepOnPop) == 0)
  {
    if wake.Sleeper? {
      SleepersUpdate(ws, wake.k, Wake(ws[wake.k]));
    } else {
      SumBounds(ws, AsleepOnPop, 0, 0);
    }
  }

  lemma SleepersSignalPush(ws: seq<Worker>, wake: Choice)
    requires PushSignalOk(ws, wake)
    ensures var n := if wake.Sleeper? then 1 else 0;
      && Sum(Signal(ws, wake), AsleepOnPop) == Sum(ws, AsleepOnPop)
      && Sum(Signal(ws, wake), WokenOnPop) == Sum(ws, WokenOnPop)
      && Sum(Signal(ws, wake), AsleepOnPush) == Sum(ws, AsleepOnPush) - n
      && Sum(Signal(ws, wake), WokenOnPush) == Sum(ws, WokenOnPush) + n
      && (n == 0 ==> Sum(ws, AsleepOnPush) == 0)
  {
    if wake.Sleeper? {
      SleepersUpdate(ws, wake.k, Wake(ws[wake.k]));
    } else {
      SumBounds(ws, AsleepOnPush, 0, 0);
    }
  }

  /** A broadcast leaves no sleeper on its condition and touches nobody else. */
  lemma SleepersBroadcast(ws: seq<Worker>)
    ensures Sum(WakePoppers(ws), AsleepOnPop) == 0
    ensures Sum(WakePoppers(ws), AsleepOnPush) == Sum(ws, AsleepOnPush)
    ensures Sum(WakePoppers(ws), WokenOnPush) == Sum(ws, WokenOnPush)
    ensures Sum(WakePushers(ws), AsleepOnPush) == 0
    ensures Sum(WakePushers(ws), AsleepOnPop) == Sum(ws, AsleepOnPop)
    ensures Sum(WakePushers(ws), WokenOnPop) == Sum(ws, WokenOnPop)
  {
    SumBounds(WakePoppers(ws), AsleepOnPop, 0, 0);
    SumPointwise(WakePoppers(ws), ws, AsleepOnPush, AsleepOnPush);
    SumPointwise(WakePoppers(ws), ws, WokenOnPush, WokenOnPush);
    SumBounds(WakePushers(ws), AsleepOnPush, 0, 0);
    SumPointwise(WakePushers(ws), ws, AsleepOnPop, AsleepOnPop);
    SumPointwise(WakePushers(ws), ws, WokenOnPop, WokenOnPop);
  }

  lemma WakeupsByMain(p: Params, g: int -> Tally, s: State, step: Step)
    requires Phases(p, s) && Wakeups(p, s) && Enabled(p, s, step) && ByMain(step)
    ensures Wakeups(p, Do(p, g, s, step))
  {
    SleepersBroadcast(s.workers);
    if s.main.CreateWorkers? {
      SleepersUpdate(s.workers, s.main.k, AtPop);
    }
  }

  lemma WakeupsByPrep(p: Params, g: int -> Tally, s: State, step: Step)
    requires Phases(p, s) && Wakeups(p, s) && Enabled(p, s, step) && (step.PrepPush? || step.PrepClose?)
    ensures Wakeups(p, Do(p, g, s, step))
  {
    SleepersNonNegative(s.workers);
    SleepersBroadcast(s.workers);
    if step.PrepPush? && PushPass(s.tasks, s.next).1.Done? {
      SleepersSignalPop(s.workers, step.wake);
    }
  }

  lemma WakeupsByPop(p: Params, g: int -> Tally, s: State, step: Step)
    requires Phases(p, s) && Wakeups(p, s) && Enabled(p, s, step) && step.WorkerPop?
    ensures Wakeups(p, Do(p, g, s, step))
  {
    var t := Do(p, g, s, step);
    SleepersNonNegative(t.workers);
    SleepersUpdate(s.workers, step.k, t.workers[step.k]);
  }

  lemma WakeupsByWorker(p: Params, g: int -> Tally, s: State, step: Step)
    requires Phases(p, s) && Wakeups(p, s) && Enabled(p, s, step) && ByWorker(step) && !step.WorkerPop?
    ensures Wakeups(p, Do(p, g, s, step))
  {
    var t := Do(p, g, s, step);
    SleepersNonNegative(t.workers);
    SleepersUpdate(s.workers, step.k, t.workers[step.k]);
  }

  lemma WakeupsByAgg(p: Params, g: int -> Tally, s: State, step: Step)
    requires Phases(p, s) && Wakeups(p, s) && Enabled(p, s, step) && (step.AggPop? || step.AggMerge?)
    ensures Wakeups(p, Do(p, g, s, step))
  {
    SleepersNonNegative(s.workers);
    if step.AggPop? && s.merges.items != [] {
      SleepersSignalPush(s.workers, step.wake);
    }
  }

  lemma WakeupsBySpurious(p: Params, g: int -> Tally, s: State, step: Step)
    requires Phases(p, s) && Wakeups(p, s) && Enabled(p, s, step) && IsSpurious(step)
    ensures Wakeups(p, Do(p, g, s, step))
  {
    if step.SpuriousWorker? {
      SleepersUpdate(s.workers, step.k, Wake(s.workers[step.k]));
    }
  }

  lemma WakeupsKept(p: Params, g: int -> Tally, s: State, step: Step)
    requires Phases(p, s) && Wakeups(p, s) && Enabled(p, s, step)
    ensures Wakeups(p, Do(p, g, s, step))
  {
    if ByMain(step) {
      WakeupsByMain(p, g, s, step);
    } else if step.WorkerPop? {
      WakeupsByPop(p, g, s, step);
    } else if ByWorker(step) {
      WakeupsByWorker(p, g, s, step);
    } else if IsSpurious(step) {
      WakeupsBySpurious(p, g, s, step);
    } else if step.PrepPush? || step.PrepClose? {
      WakeupsByPrep(p, g, s, step);
    } else {
      WakeupsByAgg(p, g, s, step);
    }
  }

  // ----- Places -----

  /** 1 for the step that takes batch b out of the task queue. */
  function Takes(s: State, step: Step, b: int): int {
    if step.WorkerPop? && s.tasks.items != [] && s.tasks.items[0] == b then 1 else 0
  }

  /** A worker that still runs finds the merge queue open: it closes only after all workers are joined. */
  lemma MergesOpenForWorkers(p: Params, s: State, k: nat)
    requires Phases(p, s) && k < |s.workers| && !Gone(s.workers[k])
    ensures !s.merges.closed && Pending(s) == s.finals && Between(2, s.main, 5)
  {
  }

  lemma PastTasksByCreate(p: Params, g: int -> Tally, s: State, step: Step, b: int)
    requires Phases(p, s) && Enabled(p, s, step) && step.MainCreate?
    ensures PastTasks(Do(p, g, s, step), b) == PastTasks(s, b)
  {
    if s.main.CreateWorkers? {
      SumUpdate(s.workers, s.main.k, AtPop, Holds(b));
    }
  }

  lemma PastTasksByClose(p: Params, g: int -> Tally, s: State, step: Step, b: int)
    requires Phases(p, s) && Enabled(p, s, step) && step.MainClose?
    ensures PastTasks(Do(p, g, s, step), b) == PastTasks(s, b)
  {
    SumPointwise(WakePoppers(s.workers), s.workers, Holds(b), Holds(b));
    SumPointwise(WakePushers(s.workers), s.workers, Holds(b), Holds(b));
  }

  lemma PastTasksByMerge(p: Params, g: int -> Tally, s: State, step: Step, b: int)
    requires Phases(p, s) && Enabled(p, s, step) && (step.MainJoin? || step.MainMerge? || step.MainFinish?)
    ensures PastTasks(Do(p, g, s, step), b) == PastTasks(s, b)
  {
    var t := Do(p, g, s, step);
    if step.MainJoin? {
      assert Pending(t) == Pending(s);
    } else if step.MainMerge? {
      assert s.finals[s.main.k..][1..] == s.finals[s.main.k + 1..];
      assert t.merged[..|s.merged|] == s.merged;
    } else {
      assert Pending(s) == [];
    }
  }

  lemma PastTasksByPrep(p: Params, g: int -> Tally, s: State, step: Step, b: int)
    requires Enabled(p, s, step) && (step.PrepPush? || step.PrepClose?)
    ensures PastTasks(Do(p, g, s, step), b) == PastTasks(s, b)
  {
    var t := Do(p, g, s, step);
    assert t.merges == s.merges && t.agg == s.agg && t.merged == s.merged && Pending(t) == Pending(s);
    if step.PrepClose? {
      SumPointwise(WakePoppers(s.workers), s.workers, Holds(b), Holds(b));
    } else if step.wake.Sleeper? {
      SumUpdate(s.workers, step.wake.k, Wake(s.workers[step.wake.k]), Holds(b));
    }
  }

  lemma TakesMoves(p: Params, g: int -> Tally, s: State, step: Step, b: int)
    requires Enabled(p, s, step) && (step.WorkerPop? || step.WorkerCompute?)
    ensures var t := Do(p, g, s, step);
      && t.workers == s.workers[step.k := t.workers[step.k]]
      && HoldsId(t.workers[step.k], b) == HoldsId(s.workers[step.k], b) + Takes(s, step, b)
  {
  }

  lemma PastTasksByPop(p: Params, g: int -> Tally, s: State, step: Step, b: int)
    requires Enabled(p, s, step) && (step.WorkerPop? || step.WorkerCompute?)
    ensures PastTasks(Do(p, g, s, step), b) == PastTasks(s, b) + Takes(s, step, b)
  {
    var t := Do(p, g, s, step);
    assert t.merges == s.merges && t.agg == s.agg && t.merged == s.merged && Pending(t) == Pending(s);
    TakesMoves(p, g, s, step, b);
    SumUpdate(s.workers, step.k, t.workers[step.k], Holds(b));
  }

  lemma PastTasksByPush(p: Params, g: int -> Tally, s: State, step: Step, b: int)
    requires !s.merges.closed && Between(2, s.main, 5) && Enabled(p, s, step) && step.WorkerPush?
    ensures PastTasks(Do(p, g, s, step), b) == PastTasks(s, b)
  {
    var t := Do(p, g, s, step);
    assert Pending(t) == Pending(s) && t.merged == s.merged && AggHolds(t.agg, b) == AggHolds(s.agg, b);
    SumUpdate(s.workers, step.k, t.workers[step.k], Holds(b));
    SumSnoc(s.merges.items, s.workers[step.k].part, HasId(b));
  }

  lemma PastTasksByAppend(p: Params, g: int -> Tally, s: State, step: Step, b: int)
    requires Between(2, s.main, 5) && Enabled(p, s, step) && step.WorkerAppend?
    ensures PastTasks(Do(p, g, s, step), b) == PastTasks(s, b)
  {
    var t := Do(p, g, s, step);
    assert Pending(s) == s.finals && Pending(t) == t.finals;
    SumUpdate(s.workers, step.k, t.workers[step.k], Holds(b));
    SumSnoc(s.finals, s.workers[step.k].part, HasId(b));
  }

  lemma PastTasksByAgg(p: Params, g: int -> Tally, s: State, step: Step, b: int)
    requires Sizes(p, s) && Enabled(p, s, step) && (step.AggPop? || step.AggMerge?)
    ensures PastTasks(Do(p, g, s, step), b) == PastTasks(s, b)
  {
    var t := Do(p, g, s, step);
    if step.AggMerge? {
      assert t.merged[..|s.merged|] == s.merged;
    } else if step.wake.Sleeper? {
      SumUpdate(s.workers, step.wake.k, Wake(s.workers[step.wake.k]), Holds(b));
    }
  }

  lemma PastTasksBySpurious(p: Params, g: int -> Tally, s: State, step: Step, b: int)
    requires Enabled(p, s, step) && IsSpurious(step)
    ensures PastTasks(Do(p, g, s, step), b) == PastTasks(s, b)
  {
    if step.SpuriousWorker? {
      SumUpdate(s.workers, step.k, Wake(s.workers[step.k]), Holds(b));
    }
  }

  /** Past the task queue no step loses or duplicates a batch; only a pop brings one in. */
  lemma PastTasksConserved(p: Params, g: int -> Tally, s: State, step: Step, b: int)
    requires Phases(p, s) && Enabled(p, s, step)
    ensures PastTasks(Do(p, g, s, step), b) == PastTasks(s, b) + Takes(s, step, b)
  {
    if step.MainCreate? {
      PastTasksByCreate(p, g, s, step, b);
    } else if step.MainClose? {
      PastTasksByClose(p, g, s, step, b);
    } else if ByMain(step) {
      PastTasksByMerge(p, g, s, step, b);
    } else if step.WorkerPop? || step.WorkerCompute? {
      PastTasksByPop(p, g, s, step, b);
    } else if ByWorker(step) {
      MergesOpenForWorkers(p, s, step.k);
      if step.WorkerPush? {
        PastTasksByPush(p, g, s, step, b);
      } else {
        PastTasksByAppend(p, g, s, step, b);
      }
    } else if IsSpurious(step) {
      PastTasksBySpurious(p, g, s, step, b);
    } else if step.PrepPush? || step.PrepClose? {
      PastTasksByPrep(p, g, s, step, b);
    } else {
      PastTasksByAgg(p, g, s, step, b);
    }
  }

  lemma TaskOrderKept(p: Params, g: int -> Tally, s: State, step: Step)
    requires TaskPhases(p, s) && TaskOrder(p, s) && Enabled(p, s, step)
    ensures TaskOrder(p, Do(p, g, s, step))
    ensures Do(p, g, s, step).popped == s.popped + if step.WorkerPop? && s.tasks.items != [] then 1 else 0
  {
  }

  lemma PlacesKept(p: Params, g: int -> Tally, s: State, step: Step)
    requires Phases(p, s) && Places(p, s) && Enabled(p, s, step)
    ensures Places(p, Do(p, g, s, step))
  {
    var t := Do(p, g, s, step);
    TaskOrderKept(p, g, s, step);
    forall b: int
      ensures PastTasks(t, b) == if 0 <= b < t.popped then 1 else 0
    {
      PastTasksConserved(p, g, s, step, b);
      assert PastTasks(s, b) == if 0 <= b < s.popped then 1 else 0;
    }
  }

  // ----- Data -----

  lemma DataByMain(p: Params, g: int -> Tally, s: State, step: Step)
    requires Data(g, s) && Enabled(p, s, step) && ByMain(step)
    ensures Data(g, Do(p, g, s, step))
  {
    if step.MainMerge? {
      assert (s.merged + [s.finals[s.main.k].id])[..|s.merged|] == s.merged;
    }
  }

  lemma DataByPop(p: Params, g: int -> Tally, s: State, step: Step)
    requires Data(g, s) && Enabled(p, s, step) && (step.WorkerPop? || step.WorkerCompute?)
    ensures Data(g, Do(p, g, s, step))
  {
  }

  lemma DataByPush(p: Params, g: int -> Tally, s: State, step: Step)
    requires Data(g, s) && Enabled(p, s, step) && (step.WorkerPush? || step.WorkerAppend?)
    ensures Data(g, Do(p, g, s, step))
  {
  }

  lemma DataByAggPop(p: Params, g: int -> Tally, s: State, step: Step)
    requires Data(g, s) && Enabled(p, s, step) && step.AggPop?
    ensures Data(g, Do(p, g, s, step))
  {
  }

  lemma DataByAggMerge(p: Params, g: int -> Tally, s: State, step: Step)
    requires Data(g, s) && Enabled(p, s, step) && step.AggMerge?
    ensures Data(g, Do(p, g, s, step))
  {
    var part, t := s.agg.part, Do(p, g, s, step);
    assert part.tally == g(part.id) && t.merged == s.merged + [part.id];
    MergeAllSnoc(s.merged, part.id, g);
    assert t.out == Add(s.out, part.tally) == MergeAll(t.merged, g);
    assert t.workers == s.workers && t.merges == s.merges && t.finals == s.finals;
  }

  lemma DataByOthers(p: Params, g: int -> Tally, s: State, step: Step)
    requires Data(g, s) && Enabled(p, s, step) && !ByMain(step) && !ByWorker(step) && !step.AggPop? && !step.AggMerge?
    ensures Data(g, Do(p, g, s, step))
  {
  }

  /** After the return nothing is merged any more, so the checksum stays that of the result. */
  lemma StampedKept(p: Params, g: int -> Tally, s: State, step: Step)
    requires Phases(p, s) && Stamped(s) && Enabled(p, s, step)
    ensures Stamped(Do(p, g, s, step))
  {
    var t := Do(p, g, s, step);
    if !step.MainFinish? {
      assert t.checksum == s.checksum;
      if s.main.Returned? {
        assert t.out == s.out && t.main == s.main;
      }
    }
  }

  // ----- Metric counters -----

  lemma EntriesUpdate(ws: seq<Worker>, k: nat, w: Worker)
    requires k < |ws|
    ensures Sum(ws[k := w], Uncomputed) == Sum(ws, Uncomputed) - Uncomputed(ws[k]) + Uncomputed(w)
    ensures Sum(ws[k := w], ExtraEntry) == Sum(ws, ExtraEntry) - ExtraEntry(ws[k]) + ExtraEntry(w)
  {
    SumUpdate(ws, k, w, Uncomputed);
    SumUpdate(ws, k, w, ExtraEntry);
  }

  lemma EntriesBroadcast(ws: seq<Worker>)
    ensures Sum(WakePoppers(ws), Uncomputed) == Sum(WakePushers(ws), Uncomputed) == Sum(ws, Uncomputed)
    ensures Sum(WakePoppers(ws), ExtraEntry) == Sum(WakePushers(ws), ExtraEntry) == Sum(ws, ExtraEntry)
  {
    SumPointwise(WakePoppers(ws), ws, Uncomputed, Uncomputed);
    SumPointwise(WakePushers(ws), ws, Uncomputed, Uncomputed);
    SumPointwise(WakePoppers(ws), ws, ExtraEntry, ExtraEntry);
    SumPointwise(WakePushers(ws), ws, ExtraEntry, ExtraEntry);
  }

  lemma CountersByCreate(p: Params, g: int -> Tally, s: State, step: Step)
    requires Phases(p, s) && Counters(p, s) && Enabled(p, s, step) && step.MainCreate?
    ensures Counters(p, Do(p, g, s, step))
  {
    if s.main.CreateWorkers? {
      EntriesUpdate(s.workers, s.main.k, AtPop);
    }
  }

  lemma CountersByClose(p: Params, g: int -> Tally, s: State, step: Step)
    requires Counters(p, s) && Enabled(p, s, step) && step.MainClose?
    ensures Counters(p, Do(p, g, s, step))
  {
    EntriesBroadcast(s.workers);
  }

  lemma CountersByMain(p: Params, g: int -> Tally, s: State, step: Step)
    requires MergePhases(p, s) && Counters(p, s) && Enabled(p, s, step)
    requires step.MainJoin? || step.MainMerge? || step.MainFinish?
    ensures Counters(p, Do(p, g, s, step))
  {
    assert Aggregated(p, Do(p, g, s, step)) == Aggregated(p, s);
  }

  lemma CountersByPop(p: Params, g: int -> Tally, s: State, step: Step)
    requires Counters(p, s) && Enabled(p, s, step) && step.WorkerPop? && s.tasks.items != []
    ensures Counters(p, Do(p, g, s, step))
  {
    var t := DoWorkerPop(s, step.k);
    assert Aggregated(p, t) == Aggregated(p, s) && PrepEntry(t.prep) == PrepEntry(s.prep);
    EntriesUpdate(s.workers, step.k, t.workers[step.k]);
  }

  lemma CountersByEmptyPop(p: Params, g: int -> Tally, s: State, step: Step)
    requires Counters(p, s) && Enabled(p, s, step) && step.WorkerPop? && s.tasks.items == []
    ensures Counters(p, Do(p, g, s, step))
  {
    var t := DoWorkerPop(s, step.k);
    assert Aggregated(p, t) == Aggregated(p, s);
    EntriesUpdate(s.workers, step.k, t.workers[step.k]);
  }

  lemma CountersByCompute(p: Params, g: int -> Tally, s: State, step: Step)
    requires Counters(p, s) && Enabled(p, s, step) && step.WorkerCompute?
    ensures Counters(p, Do(p, g, s, step))
  {
    EntriesUpdate(s.workers, step.k, Do(p, g, s, step).workers[step.k]);
  }

  lemma CountersByPush(p: Params, g: int -> Tally, s: State, step: Step)
    requires !s.merges.closed && Counters(p, s) && Enabled(p, s, step) && step.WorkerPush?
    requires |s.merges.items| != s.merges.capacity
    ensures Counters(p, Do(p, g, s, step))
  {
    var t := DoWorkerPush(s, step.k);
    assert AggEntry(t.agg) == AggEntry(s.agg) && Aggregated(p, t) == Aggregated(p, s);
    EntriesUpdate(s.workers, step.k, t.workers[step.k]);
  }

  lemma CountersByFullPush(p: Params, g: int -> Tally, s: State, step: Step)
    requires !s.merges.closed && Counters(p, s) && Enabled(p, s, step) && step.WorkerPush?
    requires |s.merges.items| == s.merges.capacity
    ensures Counters(p, Do(p, g, s, step))
  {
    var t := DoWorkerPush(s, step.k);
    assert Aggregated(p, t) == Aggregated(p, s);
    EntriesUpdate(s.workers, step.k, t.workers[step.k]);
  }

  lemma CountersByAppend(p: Params, g: int -> Tally, s: State, step: Step)
    requires Counters(p, s) && Enabled(p, s, step) && step.WorkerAppend?
    ensures Counters(p, Do(p, g, s, step))
  {
    EntriesUpdate(s.workers, step.k, AtPop);
  }

  lemma CountersByPrep(p: Params, g: int -> Tally, s: State, step: Step)
    requires TaskPhases(p, s) && TaskOrder(p, s) && Counters(p, s) && Enabled(p, s, step) && step.PrepPush?
    ensures Counters(p, Do(p, g, s, step))
  {
    assert Aggregated(p, Do(p, g, s, step)) == Aggregated(p, s);
    if step.wake.Sleeper? {
      EntriesUpdate(s.workers, step.wake.k, Wake(s.workers[step.wake.k]));
    }
  }

  lemma CountersByPrepEnd(p: Params, g: int -> Tally, s: State, step: Step)
    requires Counters(p, s) && Enabled(p, s, step) && (step.PrepClose? || step.SpuriousPrep?)
    ensures Counters(p, Do(p, g, s, step))
  {
    EntriesBroadcast(s.workers);
  }

  lemma CountersByAgg(p: Params, g: int -> Tally, s: State, step: Step)
    requires MergePhases(p, s) && Counters(p, s) && Enabled(p, s, step) && step.AggPop?
    ensures Counters(p, Do(p, g, s, step))
  {
    if step.wake.Sleeper? {
      EntriesUpdate(s.workers, step.wake.k, Wake(s.workers[step.wake.k]));
    }
  }

  lemma CountersByAggMerge(p: Params, g: int -> Tally, s: State, step: Step)
    requires Counters(p, s) && Enabled(p, s, step) && step.AggMerge?
    ensures Counters(p, Do(p, g, s, step))
  {
  }

  lemma CountersBySpurious(p: Params, g: int -> Tally, s: State, step: Step)
    requires Counters(p, s) && Enabled(p, s, step) && (step.SpuriousAgg? || step.SpuriousWorker?)
    ensures Counters(p, Do(p, g, s, step))
  {
    if step.SpuriousWorker? {
      EntriesUpdate(s.workers, step.k, Wake(s.workers[step.k]));
    }
  }

  lemma CountersKept(p: Params, g: int -> Tally, s: State, step: Step)
    requires Phases(p, s) && TaskOrder(p, s) && Counters(p, s) && Enabled(p, s, step)
    ensures Counters(p, Do(p, g, s, step))
  {
    if step.MainCreate? {
      CountersByCreate(p, g, s, step);
    } else if step.MainClose? {
      CountersByClose(p, g, s, step);
    } else if ByMain(step) {
      CountersByMain(p, g, s, step);
    } else if step.WorkerPop? {
      if s.tasks.items != [] {
        CountersByPop(p, g, s, step);
      } else {
        CountersByEmptyPop(p, g, s, step);
      }
    } else if step.WorkerCompute? {
      CountersByCompute(p, g, s, step);
    } else if step.WorkerAppend? {
      CountersByAppend(p, g, s, step);
    } else if ByWorker(step) {
      MergesOpenForWorkers(p, s, step.k);
      if |s.merges.items| != s.merges.capacity {
        CountersByPush(p, g, s, step);
      } else {
        CountersByFullPush(p, g, s, step);
      }
    } else if step.PrepPush? {
      CountersByPrep(p, g, s, step);
    } else if step.PrepClose? || step.SpuriousPrep? {
      CountersByPrepEnd(p, g, s, step);
    } else if IsSpurious(step) {
      CountersBySpurious(p, g, s, step);
    } else if step.AggMerge? {
      CountersByAggMerge(p, g, s, step);
    } else {
      CountersByAgg(p, g, s, step);
    }
  }

  // ----- All invariants, all runs -----

  lemma InvKept(p: Params, g: int -> Tally, s: State, step: Step)
    requires ValidParams(p) && Inv(p, g, s) && Enabled(p, s, step)
    ensures Inv(p, g, Do(p, g, s, step))
  {
    PhasesKept(p, g, s, step);
    WakeupsKept(p, g, s, step);
    PlacesKept(p, g, s, step);
    CountersKept(p, g, s, step);
    StampedKept(p, g, s, step);
    if ByMain(step) {
      DataByMain(p, g, s, step);
    } else if step.WorkerPop? || step.WorkerCompute? {
      DataByPop(p, g, s, step);
    } else if ByWorker(step) {
      DataByPush(p, g, s, step);
    } else if step.AggPop? {
      DataByAggPop(p, g, s, step);
    } else if step.AggMerge? {
      DataByAggMerge(p, g, s, step);
    } else {
      DataByOthers(p, g, s, step);
    }
  }

  lemma PlacesInitially(p: Params)
    ensures Places(p, Init(p))
  {
    var s := Init(p);
    forall b: int
      ensures PastTasks(s, b) == 0
    {
      SumBounds(s.workers, Holds(b), 0, 0);
    }
  }

  lemma InvInitially(p: Params, g: int -> Tally)
    requires ValidParams(p)
    ensures Inv(p, g, Init(p))
  {
    var s := Init(p);
    PlacesInitially(p);
    SumBounds(s.workers, AsleepOnPop, 0, 0);
    SumBounds(s.workers, AsleepOnPush, 0, 0);
    SumBounds(s.workers, Uncomputed, 0, 0);
    SumBounds(s.workers, ExtraEntry, 0, 0);
  }

  lemma {:induction false} InvAlong(p: Params, g: int -> Tally, s: State, steps: seq<Step>)
    requires ValidParams(p) && Inv(p, g, s) && IsSchedule(p, g, s, steps)
    ensures Inv(p, g, After(p, g, s, steps))
    decreases |steps|
  {
    if steps != [] {
      InvKept(p, g, s, steps[0]);
      InvAlong(p, g, Do(p, g, s, steps[0]), steps[1..]);
    }
  }

  /** Every state reachable by any schedule satisfies every invariant. */
  lemma ReachableInv(p: Params, g: int -> Tally, steps: seq<Step>)
    requires ValidParams(p) && IsSchedule(p, g, Init(p), steps)
    ensures Inv(p, g, After(p, g, Init(p), steps))
  {
    InvInitially(p, g);
    InvAlong(p, g, Init(p), steps);
  }
}
