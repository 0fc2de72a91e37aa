/** The producer / worker / aggregator protocol of pipeline mode as a step system.

    Source: src/pipeline_mode.c over the queues of src/task_queue.c and src/merge_queue.c.

    One step is one critical section (a pass through a queue's push or pop, a close, an append to
    `final_partials`) or one stretch of thread-local work between critical sections; the steps of all
    threads interleave arbitrarily. A thread that waits on a condition variable is asleep until a signal
    or broadcast makes it woken, and a woken thread runs its next pass when it re-acquires the mutex.
    A signal wakes one sleeper of the scheduler's choice; spurious wake-ups (IEEE Std 1003.1-2017,
    pthread_cond_wait) are steps of their own. Thread creation may fail where the source checks for it.

    `g(b)` is the tally of batch b. Three fields are history only: `popped` counts the batches taken from
    the task queue, `merged` lists the batches merged into `out`, and the batch id of a final partial
    names the batch it came from. */
module Pipeline {
  import opened Words
  import opened Tallies
  import opened Checksums
  import opened Queues

  datatype MergeMode = Final | Interactive

  datatype Params = Params(batches: nat, threads: nat, capacity: nat, mode: MergeMode)

  ghost predicate ValidParams(p: Params) {
    0 < p.batches && 0 < p.threads && 0 < p.capacity
  }

  datatype Partial = Partial(id: int, tally: Tally)

  datatype Main =
    | CreateAggregator | CreatePreprocessor | CreateWorkers(k: nat) | CloseTasks
    | JoinPreprocessor | JoinWorkers(k: nat) | CloseMerges | JoinAggregator | MergeFinals(k: nat) | Returned
    | AbortClose | AbortJoin | Aborted

  datatype Prep = PrepAbsent | PrepReady | PrepAsleep | PrepWoken | PrepExited

  datatype Worker =
    | Absent | AtPop | PopAsleep | PopWoken | Holding(id: int)
    | HasPartial(part: Partial) | PushAsleep(part: Partial) | PushWoken(part: Partial) | Exited

  datatype Aggregator = AggAbsent | AggAtPop | AggAsleep | AggWoken | AggMerging(part: Partial) | AggExited

  datatype Metrics = Metrics(lockWaits: int, condWaits: int, pushes: int, pops: int, processed: int)

  datatype State = State(
    main: Main, failed: bool,
    prep: Prep, next: nat,
    workers: seq<Worker>,
    agg: Aggregator,
    tasks: Queue<int>, merges: Queue<Partial>,
    finals: seq<Partial>,
    out: Tally, checksum: Word64,
    metrics: Metrics,
    popped: nat, merged: seq<int>)

  function Init(p: Params): State {
    State(if p.mode.Interactive? then CreateAggregator else CreatePreprocessor, false,
          PrepAbsent, 0, seq(p.threads, _ => Absent), AggAbsent,
          Queue([], p.capacity, false), Queue([], p.capacity, false), [],
          ZERO, 0, Metrics(0, 0, 0, 0, 0), 0, [])
  }

  // ----- Waking sleepers -----

  function Wake(w: Worker): Worker {
    match w
    case PopAsleep => PopWoken
    case PushAsleep(part) => PushWoken(part)
    case _ => w
  }

  /** Whom a signal wakes: a sleeper of the scheduler's choice, or no one when no one sleeps. */
  datatype Choice = NoOne | Sleeper(k: nat)

  function Signal(ws: seq<Worker>, c: Choice): seq<Worker> {
    if c.Sleeper? && c.k < |ws| then ws[c.k := Wake(ws[c.k])] else ws
  }

  predicate PopSignalOk(ws: seq<Worker>, c: Choice) {
    match c
    case NoOne => forall i :: 0 <= i < |ws| ==> !ws[i].PopAsleep?
    case Sleeper(k) => k < |ws| && ws[k].PopAsleep?
  }

  predicate PushSignalOk(ws: seq<Worker>, c: Choice) {
    match c
    case NoOne => forall i :: 0 <= i < |ws| ==> !ws[i].PushAsleep?
    case Sleeper(k) => k < |ws| && ws[k].PushAsleep?
  }

  function WakePoppers(ws: seq<Worker>): seq<Worker> {
    seq(|ws|, i requires 0 <= i < |ws| => if ws[i].PopAsleep? then PopWoken else ws[i])
  }

  function WakePushers(ws: seq<Worker>): seq<Worker> {
    seq(|ws|, i requires 0 <= i < |ws| => if ws[i].PushAsleep? then PushWoken(ws[i].part) else ws[i])
  }

  function WakePrep(p: Prep): Prep { if p.PrepAsleep? then PrepWoken else p }
  function WakeAgg(a: Aggregator): Aggregator { if a.AggAsleep? then AggWoken else a }

  // add_sync_metric on entry to push or pop, and on return from a wait.
  function Counted(m: Metrics, resuming: bool): Metrics {
    if resuming then m.(condWaits := m.condWaits + 1) else m.(lockWaits := m.lockWaits + 1)
  }

  // ----- Steps -----

  datatype Step =
    | MainCreate(ok: bool)          // pthread_create of the thread that is next
    | MainClose                     // task_queue_close after a failure, or merge_queue_close
    | MainJoin                      // one pthread_join that can return
    | MainMerge                     // merge one final partial
    | MainFinish                    // postprocess_finalize and return
    | PrepPush(wake: Choice) | PrepClose
    | WorkerPop(k: nat) | WorkerCompute(k: nat) | WorkerPush(k: nat) | WorkerAppend(k: nat)
    | AggPop(wake: Choice) | AggMerge
    | SpuriousPrep | SpuriousWorker(k: nat) | SpuriousAgg

  predicate IsSpurious(step: Step) {
    step.SpuriousPrep? || step.SpuriousWorker? || step.SpuriousAgg?
  }

  predicate Enabled(p: Params, s: State, step: Step) {
    match step
    case MainCreate(ok) =>
      || s.main.CreateAggregator?
      || (s.main.CreatePreprocessor? && (ok || p.mode.Interactive?))
      || (s.main.CreateWorkers? && s.main.k < |s.workers|)
    case MainClose => s.main.CloseTasks? || s.main.CloseMerges? || s.main.AbortClose?
    case MainJoin =>
      || (s.main.JoinPreprocessor? && s.prep.PrepExited?)
      || (s.main.JoinWorkers? && s.main.k < |s.workers| &&
          (s.workers[s.main.k].Absent? || s.workers[s.main.k].Exited?))
      || ((s.main.JoinAggregator? || s.main.AbortJoin?) && s.agg.AggExited?)
    case MainMerge => s.main.MergeFinals? && s.main.k < |s.finals|
    case MainFinish => s.main.MergeFinals? && s.main.k >= |s.finals|
    case PrepPush(wake) =>
      && (s.prep.PrepReady? || s.prep.PrepWoken?) && s.next < p.batches
      && (if PushPass(s.tasks, s.next).1.Done? then PopSignalOk(s.workers, wake) else wake.NoOne?)
    case PrepClose => s.prep.PrepReady? && s.next >= p.batches
    case WorkerPop(k) => k < |s.workers| && (s.workers[k].AtPop? || s.workers[k].PopWoken?)
    case WorkerCompute(k) => k < |s.workers| && s.workers[k].Holding?
    case WorkerPush(k) =>
      && p.mode.Interactive?
      && k < |s.workers| && (s.workers[k].HasPartial? || s.workers[k].PushWoken?)
    case WorkerAppend(k) => p.mode.Final? && k < |s.workers| && s.workers[k].HasPartial?
    case AggPop(wake) =>
      && (s.agg.AggAtPop? || s.agg.AggWoken?)
      && (if s.merges.items != [] then PushSignalOk(s.workers, wake) else wake.NoOne?)
    case AggMerge => s.agg.AggMerging?
    case SpuriousPrep => s.prep.PrepAsleep?
    case SpuriousWorker(k) => k < |s.workers| && (s.workers[k].PopAsleep? || s.workers[k].PushAsleep?)
    case SpuriousAgg => s.agg.AggAsleep?
  }

  function Do(p: Params, g: int -> Tally, s: State, step: Step): State
    requires Enabled(p, s, step)
  {
    match step
    case MainCreate(ok) => DoCreate(p, s, ok)
    case MainClose => DoClose(s)
    case MainJoin => DoJoin(p, s)
    case MainMerge =>
      s.(main := MergeFinals(s.main.k + 1), out := Add(s.out, s.finals[s.main.k].tally),
         merged := s.merged + [s.finals[s.main.k].id])
    case MainFinish => s.(main := Returned, checksum := Checksum(s.out))
    case PrepPush(wake) => DoPrepPush(s, wake)
    case PrepClose =>
      s.(prep := PrepExited, tasks := AfterClose(s.tasks), workers := WakePoppers(s.workers))
    case WorkerPop(k) => DoWorkerPop(s, k)
    case WorkerCompute(k) =>
      var id := s.workers[k].id;
      s.(workers := s.workers[k := HasPartial(Partial(id, g(id)))],
         metrics := s.metrics.(processed := s.metrics.processed + 1))
    case WorkerPush(k) => DoWorkerPush(s, k)
    case WorkerAppend(k) =>
      s.(workers := s.workers[k := AtPop], finals := s.finals + [s.workers[k].part])
    case AggPop(wake) => DoAggPop(s, wake)
    case AggMerge =>
      s.(agg := AggAtPop, out := Add(s.out, s.agg.part.tally), merged := s.merged + [s.agg.part.id])
    case SpuriousPrep => s.(prep := PrepWoken)
    case SpuriousWorker(k) => s.(workers := s.workers[k := Wake(s.workers[k])])
    case SpuriousAgg => s.(agg := AggWoken)
  }

  function DoCreate(p: Params, s: State, ok: bool): State
    requires s.main.CreateAggregator? || s.main.CreatePreprocessor? ||
             (s.main.CreateWorkers? && s.main.k < |s.workers|)
  {
    match s.main
    case CreateAggregator =>
      if ok then s.(main := CreatePreprocessor, agg := AggAtPop) else s.(main := Aborted, failed := true)
    case CreatePreprocessor =>
      if ok then s.(main := CreateWorkers(0), prep := PrepReady) else s.(main := AbortClose, failed := true)
    case CreateWorkers(k) =>
      if ok then s.(main := if k + 1 < p.threads then CreateWorkers(k + 1) else JoinPreprocessor,
                    workers := s.workers[k := AtPop])
      else s.(main := CloseTasks, failed := true)
  }

  function DoClose(s: State): State {
    if s.main.CloseTasks? then
      s.(main := JoinPreprocessor, tasks := AfterClose(s.tasks),
         workers := WakePoppers(s.workers), prep := WakePrep(s.prep))
    else
      s.(main := if s.main.AbortClose? then AbortJoin else JoinAggregator,
         merges := AfterClose(s.merges), workers := WakePushers(s.workers), agg := WakeAgg(s.agg))
  }

  function DoJoin(p: Params, s: State): State {
    match s.main
    case JoinPreprocessor => s.(main := JoinWorkers(0))
    case JoinWorkers(k) =>
      s.(main := if k + 1 < p.threads then JoinWorkers(k + 1)
                 else if p.mode.Interactive? then CloseMerges else MergeFinals(0))
    case AbortJoin => s.(main := Aborted)
    case _ => s.(main := MergeFinals(0))
  }

  function DoPrepPush(s: State, wake: Choice): State {
    var m := Counted(s.metrics, s.prep.PrepWoken?);
    var (q, pass) := PushPass(s.tasks, s.next);
    match pass
    case Waits => s.(prep := PrepAsleep, metrics := m)
    case Refused => s.(prep := PrepReady, next := s.next + 1, metrics := m)
    case Done => s.(prep := PrepReady, next := s.next + 1, tasks := q, workers := Signal(s.workers, wake),
                    metrics := m.(pushes := m.pushes + 1))
  }

  function DoWorkerPop(s: State, k: nat): State
    requires k < |s.workers|
  {
    var m := Counted(s.metrics, s.workers[k].PopWoken?);
    var (q, pass) := PopPass(s.tasks);
    match pass
    case Waits => s.(workers := s.workers[k := PopAsleep], metrics := m)
    case Refused => s.(workers := s.workers[k := Exited], metrics := m)
    case Done =>
      assert s.tasks.items != [];
      s.(workers := s.workers[k := Holding(s.tasks.items[0])], tasks := q, prep := WakePrep(s.prep),
         metrics := m.(pops := m.pops + 1), popped := s.popped + 1)
  }

  function DoWorkerPush(s: State, k: nat): State
    requires k < |s.workers| && (s.workers[k].HasPartial? || s.workers[k].PushWoken?)
  {
    var m := Counted(s.metrics, s.workers[k].PushWoken?);
    var part := s.workers[k].part;
    var (q, pass) := PushPass(s.merges, part);
    match pass
    case Waits => s.(workers := s.workers[k := PushAsleep(part)], metrics := m)
    case Refused => s.(workers := s.workers[k := AtPop], metrics := m)
    case Done => s.(workers := s.workers[k := AtPop], merges := q, agg := WakeAgg(s.agg),
                    metrics := m.(pushes := m.pushes + 1))
  }

  function DoAggPop(s: State, wake: Choice): State {
    var m := Counted(s.metrics, s.agg.AggWoken?);
    var (q, pass) := PopPass(s.merges);
    match pass
    case Waits => s.(agg := AggAsleep, metrics := m)
    case Refused => s.(agg := AggExited, metrics := m)
    case Done =>
      assert s.merges.items != [];
      s.(agg := AggMerging(s.merges.items[0]), merges := q, workers := Signal(s.workers, wake),
         metrics := m.(pops := m.pops + 1))
  }

  // ----- Runs -----

  /** `steps` is a schedule from state s: each step is enabled when its turn comes. */
  predicate IsSchedule(p: Params, g: int -> Tally, s: State, steps: seq<Step>)
    decreases |steps|
  {
    steps == [] || (Enabled(p, s, steps[0]) && IsSchedule(p, g, Do(p, g, s, steps[0]), steps[1..]))
  }

  function After(p: Params, g: int -> Tally, s: State, steps: seq<Step>): State
    requires IsSchedule(p, g, s, steps)
    decreases |steps|
  {
    if steps == [] then s else After(p, g, Do(p, g, s, steps[0]), steps[1..])
  }

  predicate Ended(s: State) { s.main.Returned? || s.main.Aborted? }

  /** The return code of run_pipeline_mode. */
  function ReturnCode(s: State): int
    requires Ended(s)
  {
    if s.failed then -1 else 0
  }
}
