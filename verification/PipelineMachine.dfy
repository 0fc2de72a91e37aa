/** Pipeline mode on mutable state: the same steps as module Pipeline, carried out in place on ring
    buffers, the array of final partials and the output record.

    Source: src/pipeline_mode.c. Each method is one step of one thread and is proved to do to the
    storage what `Pipeline.Do` does to the state, so whatever holds of all schedules of the step system
    holds of `out`. The scheduler is made explicit: `steps` is the order it chooses, arbitrary up to
    being possible. A batch travels through the task queue as its index in `batches`. */
module PipelineMachine {
  import opened Words
  import opened Tallies
  import opened Checksums
  import opened Results
  import opened Batches
  import opened Queues
  import opened Pipeline
  import opened PipelineInvariants
  import opened PipelineSafety
  import opened PipelineProgress
  import opened PipelineResults

  /** The tally of batch b of `create_batches`. */
  function BatchTally(f: int -> Outcome, trials: int, batchSize: int, b: int): Tally {
    RangeTally(f, BatchCut(trials, batchSize, b), BatchCut(trials, batchSize, b + 1))
  }

  function TallyOfBatch(f: int -> Outcome, trials: int, batchSize: int): (g: int -> Tally)
    ensures forall b :: g(b) == BatchTally(f, trials, batchSize, b)
  {
    (b: int) => BatchTally(f, trials, batchSize, b)
  }

  class Machine {
    const p: Params
    const trials: int
    const f: int -> Outcome
    const batches: seq<TaskBatch>
    ghost const g: int -> Tally

    const tasks: RingBuffer<int>
    const merges: RingBuffer<Partial>
    const workers: array<Worker>
    const finals: array<Partial>
    const out: Result

    var main: Main
    var failed: bool
    var prep: Prep
    var next: nat
    var agg: Aggregator
    var finalCount: nat
    var metrics: Metrics
    ghost var popped: nat
    ghost var merged: seq<int>

    constructor (p: Params, trials: int, f: int -> Outcome, batches: seq<TaskBatch>, ghost g: int -> Tally,
                 tasks: RingBuffer<int>, merges: RingBuffer<Partial>, out: Result)
      requires p.batches == |batches|
      requires tasks.Valid() && merges.Valid() && out.Valid()
      requires tasks.buffer != out.histogram && (tasks as object) != merges
      requires tasks.Model() == Queue([], p.capacity, false) && merges.Model() == Queue([], p.capacity, false)
      requires out.Counters() == ZERO && out.checksum == 0
      ensures Valid() && Abstract() == Init(p)
      ensures this.p == p && this.f == f && this.batches == batches && this.g == g
      ensures this.tasks == tasks && this.merges == merges && this.out == out && fresh(workers) && fresh(finals)
    {
      this.p, this.trials, this.f, this.batches, this.g := p, trials, f, batches, g;
      this.tasks, this.merges, this.out := tasks, merges, out;
      workers := new Worker[p.threads](_ => Absent);
      finals := new Partial[|batches|](_ => Partial(0, ZERO));
      main := if p.mode.Interactive? then CreateAggregator else CreatePreprocessor;
      failed, prep, next, agg, finalCount := false, PrepAbsent, 0, AggAbsent, 0;
      metrics, popped, merged := Metrics(0, 0, 0, 0, 0), 0, [];
      new;
      assert workers[..] == Init(p).workers;
    }

    ghost function Storage(): set<object> {
      {this, tasks, tasks.buffer, merges, merges.buffer, workers, finals, out, out.histogram}
    }

    ghost predicate Valid()
      reads Storage()
    {
      && tasks.Valid() && merges.Valid() && out.Valid()
      && workers.Length == p.threads && finals.Length == p.batches && finalCount <= finals.Length
      && merges.buffer != finals && tasks.buffer != out.histogram
      && (tasks as object) != merges
    }

    ghost function Abstract(): State
      requires Valid()
      reads Storage()
    {
      State(main, failed, prep, next, workers[..], agg, tasks.Model(), merges.Model(), finals[..finalCount],
            out.Counters(), out.checksum, metrics, popped, merged)
    }

    /** What a worker computes for each batch is g. */
    ghost predicate BatchesOk() {
      && |batches| == p.batches
      && forall b :: 0 <= b < |batches| ==> g(b) == RangeTally(f, batches[b].startIdx, batches[b].endIdx)
    }

    // ----- One change of the storage at a time -----

    method PushTask(item: int) returns (pass: Pass)
      requires Valid()
      modifies tasks, tasks.buffer
      ensures Valid() && pass == PushPass(old(Abstract()).tasks, item).1
      ensures Abstract() == old(Abstract()).(tasks := PushPass(old(Abstract()).tasks, item).0)
    {
      pass := tasks.Push(item);
    }

    method PopTask() returns (item: int, pass: Pass)
      requires Valid()
      modifies tasks, this`popped
      ensures Valid() && pass == PopPass(old(Abstract()).tasks).1
      ensures var s := old(Abstract());
        Abstract() == s.(tasks := PopPass(s.tasks).0, popped := if pass.Done? then s.popped + 1 else s.popped)
      ensures pass.Done? ==> old(Abstract()).tasks.items != [] && item == old(Abstract()).tasks.items[0]
    {
      item, pass := tasks.Pop();
      if pass.Done? {
        popped := popped + 1;
      }
    }

    method CloseTaskQueue()
      requires Valid()
      modifies tasks
      ensures Valid() && Abstract() == old(Abstract()).(tasks := AfterClose(old(Abstract()).tasks))
    {
      tasks.Close();
    }

    method PushMerge(item: Partial) returns (pass: Pass)
      requires Valid()
      modifies merges, merges.buffer
      ensures Valid() && pass == PushPass(old(Abstract()).merges, item).1
      ensures Abstract() == old(Abstract()).(merges := PushPass(old(Abstract()).merges, item).0)
    {
      pass := merges.Push(item);
    }

    method PopMerge() returns (item: Partial, pass: Pass)
      requires Valid()
      modifies merges
      ensures Valid() && pass == PopPass(old(Abstract()).merges).1
      ensures Abstract() == old(Abstract()).(merges := PopPass(old(Abstract()).merges).0)
      ensures pass.Done? ==> old(Abstract()).merges.items != [] && item == old(Abstract()).merges.items[0]
    {
      item, pass := merges.Pop();
    }

    method CloseMergeQueue()
      requires Valid()
      modifies merges
      ensures Valid() && Abstract() == old(Abstract()).(merges := AfterClose(old(Abstract()).merges))
    {
      merges.Close();
    }

    method SetWorker(k: nat, w: Worker)
      requires Valid() && k < workers.Length
      modifies workers
      ensures Valid() && Abstract() == old(Abstract()).(workers := old(Abstract()).workers[k := w])
    {
      workers[k] := w;
    }

    method SignalWorker(wake: Choice)
      requires Valid()
      modifies workers
      ensures Valid() && Abstract() == old(Abstract()).(workers := Signal(old(Abstract()).workers, wake))
    {
      if wake.Sleeper? && wake.k < workers.Length {
        workers[wake.k] := Wake(workers[wake.k]);
      }
    }

    method BroadcastNotEmpty()
      requires Valid()
      modifies workers
      ensures Valid() && Abstract() == old(Abstract()).(workers := WakePoppers(old(Abstract()).workers))
    {
      ghost var before := workers[..];
      for i := 0 to workers.Length
        invariant forall k :: 0 <= k < i ==> workers[k] == WakePoppers(before)[k]
        invariant forall k :: i <= k < workers.Length ==> workers[k] == before[k]
      {
        if workers[i].PopAsleep? {
          workers[i] := Wake(workers[i]);
        }
      }
      assert workers[..] == WakePoppers(before);
    }

    method BroadcastNotFull()
      requires Valid()
      modifies workers
      ensures Valid() && Abstract() == old(Abstract()).(workers := WakePushers(old(Abstract()).workers))
    {
      ghost var before := workers[..];
      for i := 0 to workers.Length
        invariant forall k :: 0 <= k < i ==> workers[k] == WakePushers(before)[k]
        invariant forall k :: i <= k < workers.Length ==> workers[k] == before[k]
      {
        if workers[i].PushAsleep? {
          workers[i] := Wake(workers[i]);
        }
      }
      assert workers[..] == WakePushers(before);
    }

    method SetPreprocessor(a: Prep, i: nat)
      requires Valid()
      modifies this`prep, this`next
      ensures Valid() && Abstract() == old(Abstract()).(prep := a, next := i)
    {
      prep, next := a, i;
    }

    method SetAggregator(a: Aggregator)
      requires Valid()
      modifies this`agg
      ensures Valid() && Abstract() == old(Abstract()).(agg := a)
    {
      agg := a;
    }

    method SetMain(m: Main, failed: bool)
      requires Valid()
      modifies this`main, this`failed
      ensures Valid() && Abstract() == old(Abstract()).(main := m, failed := failed)
    {
      main, this.failed := m, failed;
    }

    method SetMetrics(m: Metrics)
      requires Valid()
      modifies this`metrics
      ensures Valid() && Abstract() == old(Abstract()).(metrics := m)
    {
      metrics := m;
    }

    method AppendFinal(part: Partial)
      requires Valid() && finalCount < finals.Length
      modifies finals, this`finalCount
      ensures Valid() && Abstract() == old(Abstract()).(finals := old(Abstract()).finals + [part])
    {
      finals[finalCount] := part;
      finalCount := finalCount + 1;
    }

    method MergeIntoOut(part: Partial)
      requires Valid()
      modifies out, out.histogram, this`merged
      ensures Valid()
      ensures var s := old(Abstract());
        Abstract() == s.(out := Add(s.out, part.tally), merged := s.merged + [part.id])
    {
      var src := new Result();
      src.Load(Record(part.tally, 0));
      out.Merge(src);
      merged := merged + [part.id];
    }

    // ----- The steps of the threads -----

    method PreprocessorPush(wake: Choice)
      requires Valid()
      modifies Storage()
      ensures Valid() && Abstract() == DoPrepPush(old(Abstract()), wake)
    {
      ghost var s := Abstract();
      var m := Counted(metrics, prep.PrepWoken?);
      assert m == Counted(s.metrics, s.prep.PrepWoken?);
      var item := next;
      var pass := PushTask(item);
      assert pass == PushPass(s.tasks, s.next).1;
      match pass
      case Waits =>
        SetMetrics(m);
        SetPreprocessor(PrepAsleep, item);
      case Refused =>
        SetMetrics(m);
        SetPreprocessor(PrepReady, item + 1);
      case Done =>
        SetMetrics(m.(pushes := m.pushes + 1));
        SignalWorker(wake);
        SetPreprocessor(PrepReady, item + 1);
    }

    method PreprocessorClose()
      requires Valid()
      modifies Storage()
      ensures Valid()
      ensures var s := old(Abstract());
        Abstract() == s.(prep := PrepExited, tasks := AfterClose(s.tasks), workers := WakePoppers(s.workers))
    {
      CloseTaskQueue();
      BroadcastNotEmpty();
      SetPreprocessor(PrepExited, next);
    }

    method WorkerTakesBatch(k: nat)
      requires Valid() && k < workers.Length
      modifies Storage()
      ensures Valid() && Abstract() == DoWorkerPop(old(Abstract()), k)
    {
      ghost var s := Abstract();
      var m := Counted(metrics, workers[k].PopWoken?);
      assert m == Counted(s.metrics, s.workers[k].PopWoken?);
      var id, pass := PopTask();
      match pass
      case Waits =>
        SetMetrics(m);
        SetWorker(k, PopAsleep);
      case Refused =>
        SetMetrics(m);
        SetWorker(k, Exited);
      case Done =>
        SetMetrics(m.(pops := m.pops + 1));
        SetWorker(k, Holding(id));
        SetPreprocessor(WakePrep(prep), next);
    }

    method ComputePartial(id: int) returns (part: Partial)
      requires BatchesOk() && 0 <= id < |batches|
      ensures part == Partial(id, g(id))
    {
      var local := new Result();
      RunBatch(f, batches[id].startIdx, batches[id].endIdx, local);
      var result := local.Copy();
      part := Partial(id, result.tally);
    }

    method WorkerRunsBatch(k: nat)
      requires Valid() && BatchesOk() && k < workers.Length
      requires workers[k].Holding? && 0 <= workers[k].id < |batches|
      modifies Storage()
      ensures Valid()
      ensures var s := old(Abstract());
        Abstract() == s.(workers := s.workers[k := HasPartial(Partial(s.workers[k].id, g(s.workers[k].id)))],
                         metrics := s.metrics.(processed := s.metrics.processed + 1))
    {
      var part := ComputePartial(workers[k].id);
      SetMetrics(metrics.(processed := metrics.processed + 1));
      SetWorker(k, HasPartial(part));
    }

    method WorkerSendsPartial(k: nat)
      requires Valid() && k < workers.Length && (workers[k].HasPartial? || workers[k].PushWoken?)
      modifies Storage()
      ensures Valid() && Abstract() == DoWorkerPush(old(Abstract()), k)
    {
      ghost var s := Abstract();
      var m := Counted(metrics, workers[k].PushWoken?);
      var part := workers[k].part;
      assert m == Counted(s.metrics, s.workers[k].PushWoken?) && part == s.workers[k].part;
      var pass := PushMerge(part);
      match pass
      case Waits =>
        SetMetrics(m);
        SetWorker(k, PushAsleep(part));
      case Refused =>
        SetMetrics(m);
        SetWorker(k, AtPop);
      case Done =>
        SetMetrics(m.(pushes := m.pushes + 1));
        SetWorker(k, AtPop);
        SetAggregator(WakeAgg(agg));
    }

    method WorkerAppendsPartial(k: nat)
      requires Valid() && k < workers.Length && workers[k].HasPartial? && finalCount < finals.Length
      modifies Storage()
      ensures Valid()
      ensures var s := old(Abstract());
        Abstract() == s.(workers := s.workers[k := AtPop], finals := s.finals + [s.workers[k].part])
    {
      AppendFinal(workers[k].part);
      SetWorker(k, AtPop);
    }

    method AggregatorTakesPartial(wake: Choice)
      requires Valid()
      modifies Storage()
      ensures Valid() && Abstract() == DoAggPop(old(Abstract()), wake)
    {
      ghost var s := Abstract();
      var m := Counted(metrics, agg.AggWoken?);
      assert m == Counted(s.metrics, s.agg.AggWoken?);
      var part, pass := PopMerge();
      match pass
      case Waits =>
        SetMetrics(m);
        SetAggregator(AggAsleep);
      case Refused =>
        SetMetrics(m);
        SetAggregator(AggExited);
      case Done =>
        SetMetrics(m.(pops := m.pops + 1));
        SignalWorker(wake);
        SetAggregator(AggMerging(part));
    }

    method AggregatorMerges()
      requires Valid() && agg.AggMerging?
      modifies Storage()
      ensures Valid()
      ensures var s := old(Abstract());
        Abstract() == s.(agg := AggAtPop, out := Add(s.out, s.agg.part.tally), merged := s.merged + [s.agg.part.id])
    {
      MergeIntoOut(agg.part);
      SetAggregator(AggAtPop);
    }

    // ----- The steps of main -----

    method MainCreates(ok: bool)
      requires Valid()
      requires main.CreateAggregator? || main.CreatePreprocessor? || (main.CreateWorkers? && main.k < workers.Length)
      modifies Storage()
      ensures Valid() && Abstract() == DoCreate(p, old(Abstract()), ok)
    {
      match main
      case CreateAggregator =>
        if ok {
          SetAggregator(AggAtPop);
          SetMain(CreatePreprocessor, failed);
        } else {
          SetMain(Aborted, true);
        }
      case CreatePreprocessor =>
        if ok {
          SetPreprocessor(PrepReady, next);
          SetMain(CreateWorkers(0), failed);
        } else {
          SetMain(AbortClose, true);
        }
      case CreateWorkers(k) =>
        if ok {
          SetWorker(k, AtPop);
          SetMain(if k + 1 < p.threads then CreateWorkers(k + 1) else JoinPreprocessor, failed);
        } else {
          SetMain(CloseTasks, true);
        }
    }

    method MainCloses()
      requires Valid()
      modifies Storage()
      ensures Valid() && Abstract() == DoClose(old(Abstract()))
    {
      if main.CloseTasks? {
        CloseTaskQueue();
        BroadcastNotEmpty();
        SetPreprocessor(WakePrep(prep), next);
        SetMain(JoinPreprocessor, failed);
      } else {
        CloseMergeQueue();
        BroadcastNotFull();
        SetAggregator(WakeAgg(agg));
        SetMain(if main.AbortClose? then AbortJoin else JoinAggregator, failed);
      }
    }

    method MainJoins()
      requires Valid()
      modifies Storage()
      ensures Valid() && Abstract() == DoJoin(p, old(Abstract()))
    {
      match main
      case JoinPreprocessor => SetMain(JoinWorkers(0), failed);
      case JoinWorkers(k) =>
        SetMain(if k + 1 < p.threads then JoinWorkers(k + 1)
                else if p.mode.Interactive? then CloseMerges else MergeFinals(0), failed);
      case AbortJoin => SetMain(Aborted, failed);
      case _ => SetMain(MergeFinals(0), failed);
    }

    method MainMerges()
      requires Valid() && main.MergeFinals? && main.k < finalCount
      modifies Storage()
      ensures Valid()
      ensures var s := old(Abstract());
        Abstract() == s.(main := MergeFinals(s.main.k + 1), out := Add(s.out, s.finals[s.main.k].tally),
                         merged := s.merged + [s.finals[s.main.k].id])
    {
      MergeIntoOut(finals[main.k]);
      SetMain(MergeFinals(main.k + 1), failed);
    }

    method MainFinalizes()
      requires Valid()
      modifies Storage()
      ensures Valid()
      ensures var s := old(Abstract()); Abstract() == s.(main := Returned, checksum := Checksum(s.out))
    {
      var _ := Finalize(out, trials);
      SetMain(Returned, failed);
    }
    /** Carries out one step of the step system. */
    method Take(step: Step)
      requires Valid() && BatchesOk() && Enabled(p, Abstract(), step)
      requires step.WorkerCompute? ==> 0 <= Abstract().workers[step.k].id < p.batches
      requires step.WorkerAppend? ==> finalCount < p.batches
      modifies Storage()
      ensures Valid() && Abstract() == Do(p, g, old(Abstract()), step)
    {
      match step
      case MainCreate(ok) => MainCreates(ok);
      case MainClose => MainCloses();
      case MainJoin => MainJoins();
      case MainMerge => MainMerges();
      case MainFinish => MainFinalizes();
      case PrepPush(wake) => PreprocessorPush(wake);
      case PrepClose => PreprocessorClose();
      case WorkerPop(k) => WorkerTakesBatch(k);
      case WorkerCompute(k) => WorkerRunsBatch(k);
      case WorkerPush(k) => WorkerSendsPartial(k);
      case WorkerAppend(k) => WorkerAppendsPartial(k);
      case AggPop(wake) => AggregatorTakesPartial(wake);
      case AggMerge => AggregatorMerges();
      case SpuriousPrep => SetPreprocessor(PrepWoken, next);
      case SpuriousWorker(k) => SetWorker(k, Wake(workers[k]));
      case SpuriousAgg => SetAggregator(AggWoken);
    }
  }

  lemma StepInBounds(p: Params, g: int -> Tally, s: State, step: Step)
    requires Inv(p, g, s) && Enabled(p, s, step)
    ensures step.WorkerCompute? ==> 0 <= s.workers[step.k].id < p.batches
    ensures step.WorkerAppend? ==> |s.finals| < p.batches
  {
    if step.WorkerCompute? {
      HeldIdBound(p, s, step.k);
    } else if step.WorkerAppend? {
      AppendIndexBound(p, s, step.k);
    }
  }

  /** Carries out a schedule from the initial state. */
  method RunSchedule(m: Machine, steps: seq<Step>)
    requires m.Valid() && m.BatchesOk() && ValidParams(m.p) && m.Abstract() == Init(m.p)
    requires IsSchedule(m.p, m.g, Init(m.p), steps)
    modifies m.Storage()
    ensures m.Valid() && m.Abstract() == After(m.p, m.g, Init(m.p), steps)
  {
    ghost var end := After(m.p, m.g, Init(m.p), steps);
    InvInitially(m.p, m.g);
    assert steps[0..] == steps;
    for i := 0 to |steps|
      invariant m.Valid() && Inv(m.p, m.g, m.Abstract()) && IsSchedule(m.p, m.g, m.Abstract(), steps[i..])
      invariant After(m.p, m.g, m.Abstract(), steps[i..]) == end
    {
      ghost var s := m.Abstract();
      assert steps[i..][1..] == steps[i + 1..];
      StepInBounds(m.p, m.g, s, steps[i]);
      InvKept(m.p, m.g, s, steps[i]);
      m.Take(steps[i]);
    }
  }

  /** `steps` is a run of p on the batches of these trials, from its first step to its return. */
  ghost predicate IsRun(f: int -> Outcome, trials: int, batchSize: int, p: Params, steps: seq<Step>) {
    var g := TallyOfBatch(f, trials, batchSize);
    IsSchedule(p, g, Init(p), steps) && Ended(After(p, g, Init(p), steps))
  }

  lemma TallyOfBatchOk(f: int -> Outcome, trials: int, batchSize: int, p: Params)
    requires 0 < trials && 0 < batchSize && p.batches == BatchCount(trials, batchSize)
    ensures BatchTallies(f, trials, batchSize, p, TallyOfBatch(f, trials, batchSize))
  {
    var g := TallyOfBatch(f, trials, batchSize);
    BatchTalliesFrom(f, trials, batchSize, p, g);
  }

  lemma BatchTalliesFrom(f: int -> Outcome, trials: int, batchSize: int, p: Params, g: int -> Tally)
    requires 0 < trials && 0 < batchSize && p.batches == BatchCount(trials, batchSize)
    requires forall b :: g(b) == BatchTally(f, trials, batchSize, b)
    ensures BatchTallies(f, trials, batchSize, p, g)
  {
  }

  lemma RunIsSequential(f: int -> Outcome, trials: int, batchSize: int, p: Params, steps: seq<Step>)
    requires ValidParams(p) && 0 < trials && 0 < batchSize && p.batches == BatchCount(trials, batchSize)
    requires IsRun(f, trials, batchSize, p, steps)
    requires forall i :: 0 <= i < |steps| ==> !CreationFails(steps[i])
    ensures var s := After(p, TallyOfBatch(f, trials, batchSize), Init(p), steps);
      && s.out == RangeTally(f, 0, trials) && s.checksum == Checksum(RangeTally(f, 0, trials))
      && IsValid(s.out, trials)
  {
    var g := TallyOfBatch(f, trials, batchSize);
    FailedIffCreationFailed(p, g, Init(p), steps);
    TallyOfBatchOk(f, trials, batchSize, p);
    PipelineEqualsSequential(f, trials, batchSize, p, g, steps);
  }

  /** The batches of a run; none when there is nothing to do or the batch size is not positive. */
  method MakeBatches(trials: int, batchSize: int, seed: Word32, timeSteps: int) returns (batches: seq<TaskBatch>)
    requires batchSize > 0 ==> trials + batchSize - 1 <= LONG_MAX && BatchCount(trials, batchSize) <= INT_MAX
    ensures batches != [] <==> 0 < trials && 0 < batchSize
    ensures batches != [] ==> |batches| == BatchCount(trials, batchSize)
    ensures forall b :: 0 <= b < |batches| ==>
      batches[b].startIdx == BatchCut(trials, batchSize, b) && batches[b].endIdx == BatchCut(trials, batchSize, b + 1)
  {
    var created, count := CreateBatches(trials, batchSize, seed, timeSteps);
    if 0 < trials && 0 < batchSize {
      BatchCountIsCeiling(trials, batchSize);
    }
    if created == null || count <= 0 {
      return [];
    }
    BatchShape(trials, batchSize, 0);
    batches := created[..];
  }

  /** What is known of `out`, its checksum and the metric counters when pipeline mode returns: `out` is the
      sequential tally of the trials of the first batches, as many as were processed, and stamped unless
      nothing was processed. */
  ghost predicate PipelineLeaves(f: int -> Outcome, trials: int, batchSize: int, r: Tally, hash: Word64, m: Metrics) {
    && r == RangeTally(f, 0, BatchCut(trials, batchSize, m.processed))
    && (hash == Checksum(r) || (hash == 0 && m.processed == 0))
    && UndercountsRange(r, f, 0, trials)
  }

  lemma RunLeaves(f: int -> Outcome, trials: int, batchSize: int, p: Params, steps: seq<Step>)
    requires ValidParams(p) && 0 < trials && 0 < batchSize && p.batches == BatchCount(trials, batchSize)
    requires IsRun(f, trials, batchSize, p, steps)
    ensures var s := After(p, TallyOfBatch(f, trials, batchSize), Init(p), steps);
      && PipelineLeaves(f, trials, batchSize, s.out, s.checksum, s.metrics)
      && s.out == MergeAll(s.merged, TallyOfBatch(f, trials, batchSize)) && Distinct(s.merged)
      && s.metrics.condWaits == WokenPasses(p, TallyOfBatch(f, trials, batchSize), Init(p), steps)
  {
    var g := TallyOfBatch(f, trials, batchSize);
    OutAtEnd(p, g, steps);
    OutIsDistinctBatches(p, g, steps);
    CondWaitsAreWokenPasses(p, g, Init(p), steps);
    PrefixLeaves(f, trials, batchSize, p, After(p, g, Init(p), steps));
  }

  lemma PrefixLeaves(f: int -> Outcome, trials: int, batchSize: int, p: Params, s: State)
    requires 0 < trials && 0 < batchSize && p.batches == BatchCount(trials, batchSize)
    requires 0 <= s.metrics.processed <= p.batches
    requires s.out == MergeFirst(s.metrics.processed, TallyOfBatch(f, trials, batchSize))
    requires s.checksum == Checksum(s.out) || (s.checksum == 0 && s.metrics.processed == 0)
    ensures PipelineLeaves(f, trials, batchSize, s.out, s.checksum, s.metrics)
  {
    var k := s.metrics.processed;
    TallyOfBatchOk(f, trials, batchSize, p);
    BatchesMergeToPrefix(f, trials, batchSize, TallyOfBatch(f, trials, batchSize), k);
    CutInRange(trials, batchSize, k);
    PrefixUndercounts(f, BatchCut(trials, batchSize, k), trials, s.out);
  }

  lemma CutInRange(trials: int, batchSize: int, k: nat)
    requires 0 < trials && 0 < batchSize
    ensures 0 <= BatchCut(trials, batchSize, k) <= trials
  {
    MulMonotone(0, k, batchSize);
  }

  lemma PrefixUndercounts(f: int -> Outcome, mid: int, trials: int, r: Tally)
    requires 0 <= mid <= trials && r == RangeTally(f, 0, mid)
    ensures UndercountsRange(r, f, 0, trials)
  {
    forall c: Counter
      ensures 0 <= Get(r, c) <= Get(RangeTally(f, 0, trials), c)
    {
      RangeMonotone(f, 0, mid, trials, c);
    }
  }

  /** The queue passes of a run that were made by woken threads. */
  ghost function Waits(f: int -> Outcome, trials: int, batchSize: int, p: Params, steps: seq<Step>): nat
    requires IsRun(f, trials, batchSize, p, steps)
  {
    WokenPasses(p, TallyOfBatch(f, trials, batchSize), Init(p), steps)
  }

  /** Pipeline mode from its call to its return, on an arbitrary run of its threads: it returns 0 exactly
      when there are batches, the queues can be made and no thread creation fails, and then `out` is the
      sequential result and the counters in `metrics` but the waits are fixed. Whatever it returns, `out` is
      the merge of distinct batches and the sequential tally of the trials of the processed ones. */
  method RunPipelineMode(f: int -> Outcome, trials: int, batchSize: int, seed: Word32, timeSteps: int,
                         threads: nat, queueSize: int, mode: MergeMode, steps: seq<Step>, out: Result)
    returns (rc: int, metrics: Metrics, ghost merged: seq<int>)
    requires out.Valid() && 0 < threads
    requires batchSize > 0 ==> trials + batchSize - 1 <= LONG_MAX && BatchCount(trials, batchSize) <= INT_MAX
    requires batchSize > 0 && queueSize > 0 && BatchCount(trials, batchSize) > 0 ==>
      IsRun(f, trials, batchSize, Params(BatchCount(trials, batchSize), threads, queueSize, mode), steps)
    modifies out, out.histogram
    ensures rc == 0 || rc == -1
    ensures rc == 0 <==> 0 < trials && 0 < batchSize && 0 < queueSize &&
                         forall i :: 0 <= i < |steps| ==> !CreationFails(steps[i])
    ensures rc == 0 ==> out.IsSequentialResult(f, trials) && IsValid(out.Counters(), trials)
    ensures rc == 0 ==> FixedMetrics(metrics, BatchCount(trials, batchSize), threads, mode)
    ensures 0 < trials && 0 < batchSize && 0 < queueSize && 0 < BatchCount(trials, batchSize) ==>
      metrics.condWaits ==
        Waits(f, trials, batchSize, Params(BatchCount(trials, batchSize), threads, queueSize, mode), steps)
    ensures 0 < trials && 0 < batchSize ==>
      PipelineLeaves(f, trials, batchSize, out.Counters(), out.checksum, metrics)
    ensures out.Counters() == MergeAll(merged, TallyOfBatch(f, trials, batchSize)) && Distinct(merged)
    ensures UndercountsRange(out.Counters(), f, 0, trials)
  {
    out.Init();
    merged, metrics := [], Metrics(0, 0, 0, 0, 0);
    NothingUndercounts(f, trials);
    var batches := MakeBatches(trials, batchSize, seed, timeSteps);
    if batches == [] || queueSize <= 0 {
      NothingLeft(f, trials, batchSize);
      return -1, metrics, merged; // no batches, or neither queue can be made
    }
    var p := Params(|batches|, threads, queueSize, mode);
    assert IsRun(f, trials, batchSize, p, steps);
    rc, metrics, merged := RunThreads(f, trials, batchSize, batches, p, steps, out);
    RunLeaves(f, trials, batchSize, p, steps);
  }

  /** The metric counters of a run that returns 0. */
  predicate FixedMetrics(m: Metrics, batches: int, threads: nat, mode: MergeMode) {
    && m.processed == batches
    && m.pushes == m.pops == (if mode.Interactive? then 2 * batches else batches)
    && m.lockWaits == (if mode.Interactive? then 4 * batches + threads + 1 else 2 * batches + threads)
  }

  lemma NothingUndercounts(f: int -> Outcome, trials: int)
    ensures UndercountsRange(ZERO, f, 0, trials)
  {
    CountersWithinTrials(f, 0, if trials < 0 then 0 else trials);
    forall c: Counter
      ensures Get(ZERO, c) == 0 <= Get(RangeTally(f, 0, trials), c)
    {
      GetZero(c);
    }
  }

  lemma NothingLeft(f: int -> Outcome, trials: int, batchSize: int)
    ensures 0 < trials && 0 < batchSize ==>
      PipelineLeaves(f, trials, batchSize, ZERO, 0, Metrics(0, 0, 0, 0, 0))
  {
    NothingUndercounts(f, trials);
  }

  /** The part of run_pipeline_mode from the making of the queues to the return. */
  method RunThreads(f: int -> Outcome, trials: int, batchSize: int, batches: seq<TaskBatch>, p: Params,
                    steps: seq<Step>, out: Result)
    returns (rc: int, metrics: Metrics, ghost merged: seq<int>)
    requires ValidParams(p) && 0 < trials && 0 < batchSize && p.batches == BatchCount(trials, batchSize) == |batches|
    requires forall b :: 0 <= b < |batches| ==>
      batches[b].startIdx == BatchCut(trials, batchSize, b) && batches[b].endIdx == BatchCut(trials, batchSize, b + 1)
    requires out.Valid() && out.Counters() == ZERO && out.checksum == 0
    requires IsRun(f, trials, batchSize, p, steps)
    modifies out, out.histogram
    ensures var s := After(p, TallyOfBatch(f, trials, batchSize), Init(p), steps);
      out.Counters() == s.out && out.checksum == s.checksum && metrics == s.metrics && merged == s.merged
    ensures rc == if forall i :: 0 <= i < |steps| ==> !CreationFails(steps[i]) then 0 else -1
    ensures rc == 0 ==> out.IsSequentialResult(f, trials) && IsValid(out.Counters(), trials)
    ensures rc == 0 ==> FixedMetrics(metrics, p.batches, p.threads, p.mode)
  {
    var tasks := InitQueue<int>(p.capacity);
    var merges := InitQueue<Partial>(p.capacity);
    var m := new Machine(p, trials, f, batches, TallyOfBatch(f, trials, batchSize), tasks, merges, out);
    RunSchedule(m, steps);
    rc, metrics, merged := if m.failed then -1 else 0, m.metrics, m.merged;
    FailedIffCreationFailed(p, TallyOfBatch(f, trials, batchSize), Init(p), steps);
    if rc == 0 {
      RunIsSequential(f, trials, batchSize, p, steps);
      MetricsAtReturn(p, TallyOfBatch(f, trials, batchSize), steps);
    }
  }
}
