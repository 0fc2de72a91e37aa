/** What every step of the pipeline protocol keeps: the join and close order, the wake-up discipline,
    the place of every batch, the data it carries, and the metric counters. */
module PipelineInvariants {
  import opened Tallies
  import opened Checksums
  import opened Sums
  import opened Pipeline

  // ----- Join and close order -----

  function Stage(m: Main): nat {
    match m
    case CreateAggregator => 0
    case CreatePreprocessor => 1
    case CreateWorkers(_) => 2
    case CloseTasks => 3
    case JoinPreprocessor => 4
    case JoinWorkers(_) => 5
    case CloseMerges => 6
    case JoinAggregator => 7
    case MergeFinals(_) => 8
    case Returned => 9
    case AbortClose => 10
    case AbortJoin => 11
    case Aborted => 12
  }

  ghost predicate Between(lo: nat, m: Main, hi: nat) { lo <= Stage(m) <= hi }

  predicate Gone(w: Worker) { w.Exited? || w.Absent? }

  predicate OnPush(w: Worker) { w.PushAsleep? || w.PushWoken? }

  ghost predicate Sizes(p: Params, s: State) {
    && |s.workers| == p.threads && s.next <= p.batches
    && s.tasks.capacity == s.merges.capacity == p.capacity
    && |s.tasks.items| <= p.capacity && |s.merges.items| <= p.capacity
  }

  // Before the preprocessor exists nothing has happened.
  ghost predicate NothingYet(s: State) {
    && s.prep.PrepAbsent? && (forall i :: 0 <= i < |s.workers| ==> s.workers[i].Absent?)
    && s.tasks.items == [] && s.merges.items == [] && s.finals == [] && s.merged == [] && s.next == 0
    && !s.tasks.closed && !s.agg.AggMerging?
  }

  ghost predicate MainPhases(p: Params, s: State) {
    && (!Between(2, s.main, 9) ==> NothingYet(s))
    && (Between(2, s.main, 9) ==> !s.prep.PrepAbsent?)
    && (Between(5, s.main, 9) ==> s.prep.PrepExited?)
    && (s.main.CreateWorkers? ==> s.main.k < p.threads)
    && (s.main.CreateWorkers? ==> forall i :: 0 <= i < |s.workers| ==> (s.workers[i].Absent? <==> s.main.k <= i))
    && (Between(4, s.main, 9) && !s.failed ==> forall i :: 0 <= i < |s.workers| ==> !s.workers[i].Absent?)
    && (s.main.JoinWorkers? ==> s.main.k < p.threads)
    && (s.main.JoinWorkers? ==>
          forall i :: 0 <= i < |s.workers| && i < s.main.k ==> Gone(s.workers[i]))
    && (Between(6, s.main, 9) ==> forall i :: 0 <= i < |s.workers| ==> Gone(s.workers[i]))
    && (s.main.MergeFinals? ==> s.main.k <= |s.finals|)
  }

  ghost predicate Failures(s: State) {
    && (s.main.CloseTasks? || Between(10, s.main, 12) ==> s.failed)
    && (Between(0, s.main, 2) ==> !s.failed)
    && (Between(4, s.main, 9) && s.failed ==> s.tasks.closed)
  }

  ghost predicate TaskPhases(p: Params, s: State) {
    && (s.tasks.closed ==> s.prep.PrepExited? || s.failed)
    && (s.prep.PrepExited? ==> s.tasks.closed && s.next == p.batches)
    && (s.prep.PrepAsleep? || s.prep.PrepWoken? ==> s.next < p.batches)
    && (forall i :: 0 <= i < |s.workers| && s.workers[i].Exited? ==> s.tasks.closed && s.tasks.items == [])
  }

  ghost predicate MergePhases(p: Params, s: State) {
    && (s.merges.closed ==> Between(7, s.main, 9) || s.main.AbortJoin? || s.main.Aborted?)
    && (s.agg.AggExited? ==> s.merges.closed && s.merges.items == [])
    && (p.mode.Interactive? ==>
          && s.finals == []
          && (s.main.CreateAggregator? ==> s.agg.AggAbsent?)
          && (Between(1, s.main, 11) ==> !s.agg.AggAbsent?)
          && (Between(7, s.main, 9) || s.main.AbortJoin? ==> s.merges.closed)
          && (Between(8, s.main, 9) ==> s.agg.AggExited?)
          && (s.main.Aborted? ==> s.agg.AggExited? || s.agg.AggAbsent?))
    && (p.mode.Final? ==>
          && s.agg.AggAbsent? && s.merges.items == [] && !s.merges.closed
          && Between(1, s.main, 9) && !s.main.CloseMerges? && !s.main.JoinAggregator?
          && (forall i :: 0 <= i < |s.workers| ==> !OnPush(s.workers[i])))
  }

  ghost predicate Phases(p: Params, s: State) {
    Sizes(p, s) && MainPhases(p, s) && Failures(s) && TaskPhases(p, s) && MergePhases(p, s)
  }

  // ----- Wake-ups -----

  function AsleepOnPop(w: Worker): int { if w.PopAsleep? then 1 else 0 }
  function WokenOnPop(w: Worker): int { if w.PopWoken? then 1 else 0 }
  function AsleepOnPush(w: Worker): int { if w.PushAsleep? then 1 else 0 }
  function WokenOnPush(w: Worker): int { if w.PushWoken? then 1 else 0 }

  /** No signal is lost. While a queue is open and someone sleeps on `not_empty`, the items in it are at
      most the woken threads that have not run yet; dually for `not_full` and the free slots. Nobody
      sleeps on a closed queue. */
  ghost predicate Wakeups(p: Params, s: State) {
    && (Sum(s.workers, AsleepOnPop) > 0 ==>
          !s.tasks.closed && |s.tasks.items| <= Sum(s.workers, WokenOnPop))
    && (s.prep.PrepAsleep? ==> !s.tasks.closed && |s.tasks.items| == p.capacity)
    && (Sum(s.workers, AsleepOnPush) > 0 ==>
          !s.merges.closed && p.capacity - |s.merges.items| <= Sum(s.workers, WokenOnPush))
    && (s.agg.AggAsleep? ==> !s.merges.closed && s.merges.items == [])
  }

  // ----- Places -----

  function HoldsId(w: Worker, b: int): int {
    match w
    case Holding(id) => if id == b then 1 else 0
    case HasPartial(part) => if part.id == b then 1 else 0
    case PushAsleep(part) => if part.id == b then 1 else 0
    case PushWoken(part) => if part.id == b then 1 else 0
    case _ => 0
  }

  function Holds(b: int): Worker -> int { (w: Worker) => HoldsId(w, b) }
  function HasId(b: int): Partial -> int { (part: Partial) => if part.id == b then 1 else 0 }
  function Is(b: int): int -> int { (x: int) => if x == b then 1 else 0 }

  function AggHolds(a: Aggregator, b: int): int {
    if a.AggMerging? && a.part.id == b then 1 else 0
  }

  /** The final partials that are not yet merged. */
  function Pending(s: State): seq<Partial> {
    match s.main
    case MergeFinals(k) => if k <= |s.finals| then s.finals[k..] else []
    case Returned => []
    case _ => s.finals
  }

  /** How many hands past the task queue batch b is in. */
  ghost function PastTasks(s: State, b: int): int {
    Sum(s.workers, Holds(b)) + Sum(s.merges.items, HasId(b)) + AggHolds(s.agg, b)
    + Sum(Pending(s), HasId(b)) + Occurs(s.merged, b)
  }

  ghost predicate TaskOrder(p: Params, s: State) {
    && (forall i :: 0 <= i < |s.tasks.items| ==> s.tasks.items[i] == s.popped + i)
    && s.popped + |s.tasks.items| <= s.next
    && (s.popped + |s.tasks.items| == s.next || (s.failed && s.tasks.closed))
  }

  ghost predicate Places(p: Params, s: State) {
    && TaskOrder(p, s)
    && forall b: int :: PastTasks(s, b) == if 0 <= b < s.popped then 1 else 0
  }

  // ----- Data -----

  ghost predicate PartOk(g: int -> Tally, part: Partial) { part.tally == g(part.id) }

  ghost predicate Data(g: int -> Tally, s: State) {
    && (forall i :: 0 <= i < |s.workers| && (s.workers[i].HasPartial? || OnPush(s.workers[i])) ==>
          PartOk(g, s.workers[i].part))
    && (forall i :: 0 <= i < |s.merges.items| ==> PartOk(g, s.merges.items[i]))
    && (forall i :: 0 <= i < |s.finals| ==> PartOk(g, s.finals[i]))
    && (s.agg.AggMerging? ==> PartOk(g, s.agg.part))
    && s.out == MergeAll(s.merged, g)
  }

  ghost predicate Stamped(s: State) {
    if s.main.Returned? then s.checksum == Checksum(s.out) else s.checksum == 0
  }

  // ----- Metric counters -----

  function Uncomputed(w: Worker): int { if w.Holding? then 1 else 0 }

  // Entries into a queue operation beyond those counted by the batches taken and pushed.
  function ExtraEntry(w: Worker): int {
    if w.PopAsleep? || w.PopWoken? || w.Exited? || OnPush(w) then 1 else 0
  }

  function PrepEntry(a: Prep): int { if a.PrepAsleep? || a.PrepWoken? then 1 else 0 }
  function AggEntry(a: Aggregator): int { if a.AggAsleep? || a.AggWoken? || a.AggExited? then 1 else 0 }

  /** Partials the aggregator has taken out of the merge queue. */
  function Aggregated(p: Params, s: State): int {
    if p.mode.Interactive? then |s.merged| + (if s.agg.AggMerging? then 1 else 0) else 0
  }

  ghost predicate Counters(p: Params, s: State) {
    var m, taken, moved := s.metrics, Aggregated(p, s), Aggregated(p, s) + |s.merges.items|;
    && m.processed == s.popped - Sum(s.workers, Uncomputed)
    && m.pushes == s.popped + |s.tasks.items| + moved
    && m.pops == s.popped + taken
    && m.lockWaits == s.next + PrepEntry(s.prep) + s.popped + Sum(s.workers, ExtraEntry)
                    + moved + taken + AggEntry(s.agg)
  }

  ghost predicate Inv(p: Params, g: int -> Tally, s: State) {
    Phases(p, s) && Wakeups(p, s) && Places(p, s) && Data(g, s) && Stamped(s) && Counters(p, s)
  }
}
