/** The static thread modes as a step system: reduce, mutex and nosync.

    Source: src/thread_mode.c (record_trial_result, thread_worker, run_thread_mode_metrics) and the same
    code inside a hybrid child (hybrid_record_trial, hybrid_thread_worker, run_child_thread_group).

    Each `+= 1` on a shared counter is a load step and a store step, and the steps of the threads
    interleave arbitrarily: sequential consistency is the modelling assumption for nosync, whose data
    race C11 leaves undefined (section 5.1.2.4). In mutex mode a trial is recorded between lock and unlock;
    in reduce mode a thread records into its own tally. */
module ThreadMode {
  import opened Tallies
  import opened Partitions

  datatype SyncMode = Nosync | Mutex | Reduce

  datatype Register = Empty | Loaded(v: int)

  /** Between trials, or in result_add_trial on a shared tally with the cells still to increment. */
  datatype Pc = Ready | Adding(todo: seq<Counter>, reg: Register)

  datatype Thread = Thread(start: int, next: int, end: int, local: Tally, pc: Pc)

  datatype Holder = Free | HeldBy(k: nat)

  datatype State = State(threads: seq<Thread>, shared: Tally, holder: Holder, lockWaits: int)

  /** The trials [base, base + n) split among `count` threads, of which the first `created` run. */
  function Init(base: int, n: nat, count: nat, created: nat): State
    requires 0 < count && created <= count
  {
    State(seq(created, i requires 0 <= i < created =>
                var s := base + PartStart(n, count, i);
                Thread(s, s, base + PartEnd(n, count, i), ZERO, Ready)),
          ZERO, Free, 0)
  }

  datatype Step = Begin(k: nat) | Load(k: nat) | Store(k: nat) | Finish(k: nat)

  predicate Enabled(mode: SyncMode, s: State, step: Step) {
    && step.k < |s.threads|
    && var t := s.threads[step.k];
       match step
       case Begin(_) => t.pc.Ready? && t.next < t.end && (mode.Mutex? ==> s.holder.Free?)
       case Load(_) => t.pc.Adding? && t.pc.todo != [] && t.pc.reg.Empty?
       case Store(_) => t.pc.Adding? && t.pc.todo != [] && t.pc.reg.Loaded?
       case Finish(_) => t.pc.Adding? && t.pc.todo == []
  }

  function Do(f: int -> Outcome, mode: SyncMode, s: State, step: Step): State
    requires Enabled(mode, s, step)
  {
    var k := step.k;
    var t := s.threads[k];
    match step
    case Begin(_) =>
      if mode.Reduce? then
        s.(threads := s.threads[k := t.(local := AddTrial(t.local, f(t.next)), next := t.next + 1)])
      else
        State(s.threads[k := t.(pc := Adding(Touched(f(t.next)), Empty))], s.shared,
              if mode.Mutex? then HeldBy(k) else s.holder,
              if mode.Mutex? then s.lockWaits + 1 else s.lockWaits)
    case Load(_) => s.(threads := s.threads[k := t.(pc := t.pc.(reg := Loaded(Get(s.shared, t.pc.todo[0]))))])
    case Store(_) =>
      s.(threads := s.threads[k := t.(pc := Adding(t.pc.todo[1..], Empty))],
         shared := Put(s.shared, t.pc.todo[0], t.pc.reg.v + 1))
    case Finish(_) =>
      s.(threads := s.threads[k := t.(next := t.next + 1, pc := Ready)],
         holder := if mode.Mutex? then Free else s.holder)
  }

  predicate IsSchedule(f: int -> Outcome, mode: SyncMode, s: State, steps: seq<Step>)
    decreases |steps|
  {
    steps == [] || (Enabled(mode, s, steps[0]) && IsSchedule(f, mode, Do(f, mode, s, steps[0]), steps[1..]))
  }

  function After(f: int -> Outcome, mode: SyncMode, s: State, steps: seq<Step>): State
    requires IsSchedule(f, mode, s, steps)
    decreases |steps|
  {
    if steps == [] then s else After(f, mode, Do(f, mode, s, steps[0]), steps[1..])
  }

  /** All threads have run to the end of their range: the joins return. */
  predicate Joined(s: State) {
    forall i :: 0 <= i < |s.threads| ==> s.threads[i].pc.Ready? && s.threads[i].next >= s.threads[i].end
  }

  function MergeLocals(threads: seq<Thread>): Tally {
    if threads == [] then ZERO else Add(MergeLocals(threads[..|threads| - 1]), threads[|threads| - 1].local)
  }

  /** The counters main finalises, and its return code, when `count` threads were asked for. */
  function Output(mode: SyncMode, s: State, count: nat): Tally {
    if mode.Reduce? && |s.threads| == count then MergeLocals(s.threads) else s.shared
  }

  function ReturnCode(s: State, count: nat): int { if |s.threads| < count then -1 else 0 }

  /** `r` is what some complete interleaving of all `count` threads leaves behind. */
  ghost predicate IsOutcome(f: int -> Outcome, mode: SyncMode, base: int, n: nat, count: nat, r: Tally)
    requires 0 < count
  {
    exists steps ::
      && IsSchedule(f, mode, Init(base, n, count, count), steps)
      && Joined(After(f, mode, Init(base, n, count, count), steps))
      && r == Output(mode, After(f, mode, Init(base, n, count, count), steps), count)
  }
}
