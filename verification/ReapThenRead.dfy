/** The parent reaps every child before it reads the first pipe: when can that block for ever?

    Source: the wait and read loops of run_process_mode (src/process_mode.c) and run_hybrid_mode
    (src/hybrid_mode.c). Each child writes its RESULT_SIZE bytes into its own pipe, in pieces of any size
    that fits the free room, and exits when all are written. At any time it may instead end early: killed,
    or exiting after a failed write. `capacity` is how many bytes a pipe holds. */
module ReapThenRead {
  import opened Ipc

  datatype Child = Running | Exited | Dead

  datatype State = State(written: seq<nat>, children: seq<Child>, reaped: nat, read: nat)

  function Init(children: nat): State {
    State(seq(children, _ => 0), seq(children, _ => Running), 0, 0)
  }

  datatype Step = Write(i: nat, n: nat) | Exit(i: nat) | Die(i: nat) | Reap | Read

  predicate Enabled(capacity: nat, s: State, step: Step) {
    match step
    case Write(i, n) =>
      // No one drains the pipe of a child before all children are reaped.
      && i < |s.written| && i < |s.children| && s.children[i].Running?
      && 0 < n && s.written[i] + n <= RESULT_SIZE && s.written[i] + n <= capacity
    case Exit(i) => i < |s.written| && i < |s.children| && s.children[i].Running? && s.written[i] == RESULT_SIZE
    case Die(i) => i < |s.children| && s.children[i].Running?
    case Reap => s.reaped < |s.children| && !s.children[s.reaped].Running?
    case Read => s.reaped == |s.children| && s.read < |s.children|
  }

  function Do(capacity: nat, s: State, step: Step): State
    requires Enabled(capacity, s, step)
  {
    match step
    case Write(i, n) => s.(written := s.written[i := s.written[i] + n])
    case Exit(i) => s.(children := s.children[i := Exited])
    case Die(i) => s.(children := s.children[i := Dead])
    case Reap => s.(reaped := s.reaped + 1)
    case Read => s.(read := s.read + 1)
  }

  predicate IsSchedule(capacity: nat, s: State, steps: seq<Step>)
    decreases |steps|
  {
    steps == [] || (Enabled(capacity, s, steps[0]) && IsSchedule(capacity, Do(capacity, s, steps[0]), steps[1..]))
  }

  function After(capacity: nat, s: State, steps: seq<Step>): State
    requires IsSchedule(capacity, s, steps)
    decreases |steps|
  {
    if steps == [] then s else After(capacity, Do(capacity, s, steps[0]), steps[1..])
  }

  predicate Finished(s: State) { s.read == |s.children| }

  /** Nothing can happen any more, unless a child ends early. */
  ghost predicate Stuck(capacity: nat, s: State) {
    !Finished(s) && forall step :: Enabled(capacity, s, step) ==> step.Die?
  }

  ghost predicate Inv(children: nat, capacity: nat, s: State) {
    && |s.written| == |s.children| == children && s.reaped <= children && s.read <= children
    && (s.read > 0 ==> s.reaped == children)
    && forall i :: 0 <= i < children ==>
         && s.written[i] <= RESULT_SIZE && s.written[i] <= capacity
         && (s.children[i].Exited? ==> s.written[i] == RESULT_SIZE)
         && (i < s.reaped ==> !s.children[i].Running?)
  }

  lemma {:induction false} InvAlong(children: nat, capacity: nat, s: State, steps: seq<Step>)
    requires Inv(children, capacity, s) && IsSchedule(capacity, s, steps)
    ensures Inv(children, capacity, After(capacity, s, steps))
    decreases |steps|
  {
    if steps != [] {
      InvAlong(children, capacity, Do(capacity, s, steps[0]), steps[1..]);
    }
  }

  /** Bytes still to write, exits, reaps and reads still to come. */
  function Left(s: State): int { Unwritten(s.written) + Alive(s.children) + 2 * |s.children| - s.reaped - s.read }

  function Unwritten(written: seq<nat>): int {
    if written == [] then 0 else RESULT_SIZE - written[0] + Unwritten(written[1..])
  }

  function Alive(children: seq<Child>): int {
    if children == [] then 0 else (if children[0].Running? then 1 else 0) + Alive(children[1..])
  }

  lemma {:induction false} UnwrittenUpdate(written: seq<nat>, i: nat, w: nat)
    requires i < |written|
    ensures Unwritten(written[i := w]) == Unwritten(written) + written[i] - w
  {
    if i == 0 {
      assert written[i := w][1..] == written[1..];
    } else {
      assert written[i := w][1..] == written[1..][i - 1 := w];
      UnwrittenUpdate(written[1..], i - 1, w);
    }
  }

  lemma {:induction false} AliveUpdate(children: seq<Child>, i: nat, c: Child)
    requires i < |children| && children[i].Running? && !c.Running?
    ensures Alive(children[i := c]) == Alive(children) - 1
  {
    if i == 0 {
      assert children[i := c][1..] == children[1..];
    } else {
      assert children[i := c][1..] == children[1..][i - 1 := c];
      AliveUpdate(children[1..], i - 1, c);
    }
  }

  /** Every step brings the end nearer, so every schedule that is never stuck finishes. */
  lemma EveryStepCounts(capacity: nat, s: State, step: Step)
    requires Enabled(capacity, s, step)
    ensures Left(Do(capacity, s, step)) < Left(s)
  {
    match step
    case Write(i, n) => UnwrittenUpdate(s.written, i, s.written[i] + n);
    case Exit(i) => AliveUpdate(s.children, i, Exited);
    case Die(i) => AliveUpdate(s.children, i, Dead);
    case _ =>
  }

  /** A pipe that holds one whole result rules out deadlock on every schedule, whoever dies. */
  lemma RoomMeansNeverStuck(children: nat, capacity: nat, steps: seq<Step>)
    requires RESULT_SIZE <= capacity && IsSchedule(capacity, Init(children), steps)
    ensures !Stuck(capacity, After(capacity, Init(children), steps))
  {
    InvAlong(children, capacity, Init(children), steps);
    var s := After(capacity, Init(children), steps);
    if !Finished(s) {
      if s.reaped < children {
        var i := s.reaped;
        if !s.children[i].Running? {
          assert Enabled(capacity, s, Reap);
        } else if s.written[i] == RESULT_SIZE {
          assert Enabled(capacity, s, Exit(i));
        } else {
          assert Enabled(capacity, s, Write(i, RESULT_SIZE - s.written[i]));
        }
      } else {
        assert Enabled(capacity, s, Read);
      }
    }
  }

  ghost predicate AllDead(s: State) {
    forall i :: 0 <= i < |s.children| ==> s.children[i].Dead?
  }

  ghost predicate Finishes(children: nat, capacity: nat, steps: seq<Step>) {
    IsSchedule(capacity, Init(children), steps) && Finished(After(capacity, Init(children), steps))
  }

  /** With a smaller pipe the parent finishes only if every child has died ... */
  lemma FinishedMeansAllDead(children: nat, capacity: nat, steps: seq<Step>)
    requires capacity < RESULT_SIZE && Finishes(children, capacity, steps)
    ensures AllDead(After(capacity, Init(children), steps))
  {
    InvAlong(children, capacity, Init(children), steps);
    var s := After(capacity, Init(children), steps);
    forall i | 0 <= i < children
      ensures s.children[i].Dead?
    {
      assert s.written[i] <= capacity && i < s.reaped;
    }
  }

  /** ... and it can finish that way: a schedule that ends with all children dead exists. */
  lemma DeathsFinish(children: nat, capacity: nat) returns (steps: seq<Step>)
    ensures Finishes(children, capacity, steps) && AllDead(After(capacity, Init(children), steps))
  {
    InitInv(children, capacity);
    steps := DieThenFinish(children, capacity, Init(children));
  }

  ghost predicate NoneExited(s: State) {
    forall i :: 0 <= i < |s.children| ==> !s.children[i].Exited?
  }

  /** The next step of a run in which children die one after the other and the parent does its loops. */
  function NextDeath(s: State): Step {
    if s.reaped < |s.children| then (if s.children[s.reaped].Running? then Die(s.reaped) else Reap) else Read
  }

  lemma {:induction false} DieThenFinish(children: nat, capacity: nat, s: State) returns (steps: seq<Step>)
    requires Inv(children, capacity, s) && NoneExited(s)
    ensures IsSchedule(capacity, s, steps)
    ensures Finished(After(capacity, s, steps)) && AllDead(After(capacity, s, steps))
    decreases Left(s)
  {
    LeftNonNegative(children, capacity, s);
    if Finished(s) {
      steps := [];
    } else {
      var step := NextDeath(s);
      EveryStepCounts(capacity, s, step);
      var rest := DieThenFinish(children, capacity, Do(capacity, s, step));
      steps := [step] + rest;
      assert steps[1..] == rest;
    }
  }

  ghost predicate EndsStuck(children: nat, capacity: nat, steps: seq<Step>) {
    IsSchedule(capacity, Init(children), steps) && Stuck(capacity, After(capacity, Init(children), steps))
  }

  /** Some schedule gets stuck exactly when a pipe is too small for a result. */
  lemma StuckIffNoRoom(children: nat, capacity: nat)
    requires 0 < children
    ensures (exists steps :: EndsStuck(children, capacity, steps)) <==> capacity < RESULT_SIZE
  {
    if capacity < RESULT_SIZE {
      InitInv(children, capacity);
      var steps := RunToStuck(children, capacity, Init(children));
      assert EndsStuck(children, capacity, steps);
    } else {
      forall steps | IsSchedule(capacity, Init(children), steps)
        ensures !EndsStuck(children, capacity, steps)
      {
        RoomMeansNeverStuck(children, capacity, steps);
      }
    }
  }

  lemma InitInv(children: nat, capacity: nat)
    ensures Inv(children, capacity, Init(children))
  {
  }

  lemma {:induction false} LeftNonNegative(children: nat, capacity: nat, s: State)
    requires Inv(children, capacity, s)
    ensures 0 <= Left(s)
  {
    UnwrittenNonNegative(s.written);
    AliveNonNegative(s.children);
  }

  lemma {:induction false} UnwrittenNonNegative(written: seq<nat>)
    requires forall i :: 0 <= i < |written| ==> written[i] <= RESULT_SIZE
    ensures 0 <= Unwritten(written)
  {
    if written != [] {
      UnwrittenNonNegative(written[1..]);
    }
  }

  lemma {:induction false} AliveNonNegative(children: seq<Child>)
    ensures 0 <= Alive(children)
  {
    if children != [] {
      AliveNonNegative(children[1..]);
    }
  }

  /** With too small pipes and no deaths, any way of continuing ends stuck. */
  lemma {:induction false} RunToStuck(children: nat, capacity: nat, s: State) returns (steps: seq<Step>)
    requires 0 < children && capacity < RESULT_SIZE && Inv(children, capacity, s)
    requires s.children[0].Running?
    ensures IsSchedule(capacity, s, steps) && Stuck(capacity, After(capacity, s, steps))
    decreases Left(s)
  {
    LeftNonNegative(children, capacity, s);
    if step :| Enabled(capacity, s, step) && !step.Die? {
      EveryStepCounts(capacity, s, step);
      var rest := RunToStuck(children, capacity, Do(capacity, s, step));
      steps := [step] + rest;
      assert steps[1..] == rest;
    } else {
      steps := [];
    }
  }
}
