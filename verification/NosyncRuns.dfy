/** Interleavings of nosync built from runs of one thread at a time, and what they leave in the counters.

    Source: the SYNC_NOSYNC branch of record_trial_result (src/thread_mode.c). */
module NosyncRuns {
  import opened Tallies
  import opened Sums
  import opened ThreadMode
  import opened ThreadModeProofs

  // ----- Reachability -----

  /** Some schedule leads from s to t. */
  ghost predicate Leads(f: int -> Outcome, s: State, t: State) {
    exists steps :: IsSchedule(f, Nosync, s, steps) && After(f, Nosync, s, steps) == t
  }

  lemma LeadsSelf(f: int -> Outcome, s: State)
    ensures Leads(f, s, s)
  {
    assert IsSchedule(f, Nosync, s, []);
  }

  lemma LeadsStep(f: int -> Outcome, s: State, step: Step, t: State)
    requires Enabled(Nosync, s, step) && Leads(f, Do(f, Nosync, s, step), t)
    ensures Leads(f, s, t)
  {
    var u := Do(f, Nosync, s, step);
    var rest :| IsSchedule(f, Nosync, u, rest) && After(f, Nosync, u, rest) == t;
    var steps := [step] + rest;
    assert steps[1..] == rest;
    assert IsSchedule(f, Nosync, s, steps);
  }

  lemma {:induction false} Concat(f: int -> Outcome, s: State, steps: seq<Step>, more: seq<Step>)
    requires IsSchedule(f, Nosync, s, steps) && IsSchedule(f, Nosync, After(f, Nosync, s, steps), more)
    ensures IsSchedule(f, Nosync, s, steps + more)
    ensures After(f, Nosync, s, steps + more) == After(f, Nosync, After(f, Nosync, s, steps), more)
    decreases |steps|
  {
    if steps == [] {
      assert steps + more == more;
    } else {
      assert (steps + more)[1..] == steps[1..] + more;
      Concat(f, Do(f, Nosync, s, steps[0]), steps[1..], more);
    }
  }

  lemma LeadsTrans(f: int -> Outcome, s: State, t: State, u: State)
    requires Leads(f, s, t) && Leads(f, t, u)
    ensures Leads(f, s, u)
  {
    var steps :| IsSchedule(f, Nosync, s, steps) && After(f, Nosync, s, steps) == t;
    var more :| IsSchedule(f, Nosync, t, more) && After(f, Nosync, t, more) == u;
    Concat(f, s, steps, more);
  }

  // ----- One thread runs alone -----

  predicate About(pc: Pc, c: Counter) { pc.Adding? && pc.todo != [] && pc.todo[0] == c }

  predicate Pending(pc: Pc, c: Counter) { About(pc, c) && pc.reg.Loaded? }

  /** The value on which the next store of thread k to counter c builds: what it has loaded, or else what
      it will load if nobody else runs. */
  function Base(s: State, k: nat, c: Counter): int
    requires k < |s.threads|
  {
    if Pending(s.threads[k].pc, c) then s.threads[k].pc.reg.v else Get(s.shared, c)
  }

  predicate Finished(t: Thread) { t.pc.Ready? && t.next >= t.end }

  /** How often the whole part of a thread hits counter c. */
  function Want(f: int -> Outcome, t: Thread, c: Counter): int { Get(RangeTally(f, t.start, t.end), c) }

  /** From s to t only thread k has moved, and each of its stores added one to its base. */
  ghost predicate Alone(f: int -> Outcome, s: State, t: State, k: nat) {
    && k < |s.threads| == |t.threads| && t.threads == s.threads[k := t.threads[k]]
    && t.threads[k].start == s.threads[k].start && t.threads[k].end == s.threads[k].end
    && forall c: Counter ::
         Base(t, k, c) - Base(s, k, c) == StoresBy(f, t.threads[k], c) - StoresBy(f, s.threads[k], c)
  }

  lemma AloneStep(f: int -> Outcome, s: State, step: Step)
    requires Enabled(Nosync, s, step) && ThreadOk(f, s.threads[step.k])
    ensures Alone(f, s, Do(f, Nosync, s, step), step.k)
  {
    var k, t := step.k, Do(f, Nosync, s, step);
    OthersUnchanged(f, Nosync, s, step);
    forall c: Counter
      ensures Base(t, k, c) - Base(s, k, c) == StoresBy(f, t.threads[k], c) - StoresBy(f, s.threads[k], c)
    {
      StoresByStep(f, Nosync, s, step, c);
      SharedStep(f, Nosync, s, step, c);
    }
  }

  lemma AloneTrans(f: int -> Outcome, s: State, t: State, u: State, k: nat)
    requires Alone(f, s, t, k) && Alone(f, t, u, k)
    ensures Alone(f, s, u, k)
  {
  }

  function NextStep(pc: Pc, k: nat): Step {
    match pc
    case Ready => Begin(k)
    case Adding(todo, reg) => if todo == [] then Finish(k) else if reg.Empty? then Load(k) else Store(k)
  }

  /** The thread has stored m times to c and is about to store again, its load done or not. */
  predicate Halts(f: int -> Outcome, t: Thread, c: Counter, m: int, loaded: bool) {
    About(t.pc, c) && t.pc.reg.Loaded? == loaded && StoresBy(f, t, c) == m
  }

  lemma FinishedStores(f: int -> Outcome, t: Thread, c: Counter)
    requires ThreadOk(f, t) && Finished(t)
    ensures StoresBy(f, t, c) == Want(f, t, c)
  {
  }

  lemma NextStepEnabled(f: int -> Outcome, s: State, k: nat)
    requires k < |s.threads| && ThreadOk(f, s.threads[k]) && !Finished(s.threads[k])
    ensures Enabled(Nosync, s, NextStep(s.threads[k].pc, k))
    ensures 0 <= Left(Do(f, Nosync, s, NextStep(s.threads[k].pc, k)).threads[k]) < Left(s.threads[k])
  {
    var step := NextStep(s.threads[k].pc, k);
    OneThreadStep(f, Nosync, s, step);
  }

  lemma HaltsLater(f: int -> Outcome, s: State, k: nat, c: Counter, m: int, loaded: bool)
    requires k < |s.threads| && ThreadOk(f, s.threads[k]) && !Finished(s.threads[k])
    requires StoresBy(f, s.threads[k], c) <= m && !Halts(f, s.threads[k], c, m, loaded)
    requires !loaded && StoresBy(f, s.threads[k], c) == m ==> !Pending(s.threads[k].pc, c)
    requires Enabled(Nosync, s, NextStep(s.threads[k].pc, k))
    ensures var t := Do(f, Nosync, s, NextStep(s.threads[k].pc, k)).threads[k];
      && StoresBy(f, t, c) <= m
      && (!loaded && StoresBy(f, t, c) == m ==> !Pending(t.pc, c))
  {
    StoresByStep(f, Nosync, s, NextStep(s.threads[k].pc, k), c);
  }

  /** Thread k runs alone until it is about to store to c for the time after the m-th, or to its end if
      its part hits c only m times. */
  lemma {:induction false} RunTo(f: int -> Outcome, s: State, k: nat, c: Counter, m: int, loaded: bool)
    returns (t: State)
    requires ThreadsOk(f, s) && k < |s.threads|
    requires StoresBy(f, s.threads[k], c) <= m <= Want(f, s.threads[k], c)
    requires !loaded && StoresBy(f, s.threads[k], c) == m ==> !Pending(s.threads[k].pc, c)
    ensures Leads(f, s, t) && ThreadsOk(f, t) && Alone(f, s, t, k)
    ensures if m < Want(f, s.threads[k], c) then Halts(f, t.threads[k], c, m, loaded) else Finished(t.threads[k])
    decreases if Left(s.threads[k]) < 0 then 0 else Left(s.threads[k])
  {
    var th := s.threads[k];
    assert ThreadOk(f, th);
    StoresBounds(f, th, c);
    if Halts(f, th, c, m, loaded) {
      LeadsSelf(f, s);
      t := s;
    } else if Finished(th) {
      FinishedStores(f, th, c);
      LeadsSelf(f, s);
      t := s;
    } else {
      var step := NextStep(th.pc, k);
      NextStepEnabled(f, s, k);
      HaltsLater(f, s, k, c, m, loaded);
      AloneStep(f, s, step);
      ThreadStep(f, Nosync, s, step);
      var u := Do(f, Nosync, s, step);
      t := RunTo(f, u, k, c, m, loaded);
      LeadsStep(f, s, step, t);
      AloneTrans(f, s, u, t, k);
    }
  }

  // ----- Updates lost -----

  function Lost(f: int -> Outcome, s: State, c: Counter): int {
    Sum(s.threads, Stores(f, c)) - Get(s.shared, c)
  }

  /** A run of one thread that starts and ends with nothing loaded from c loses no update of c. */
  lemma AloneLosesNothing(f: int -> Outcome, s: State, t: State, k: nat, c: Counter)
    requires Alone(f, s, t, k) && !Pending(s.threads[k].pc, c) && !Pending(t.threads[k].pc, c)
    ensures Lost(f, t, c) == Lost(f, s, c)
  {
    SumUpdate(s.threads, k, t.threads[k], Stores(f, c));
    assert Base(t, k, c) == Get(t.shared, c) && Base(s, k, c) == Get(s.shared, c);
  }

  lemma RunToEnd(f: int -> Outcome, s: State, k: nat) returns (t: State)
    requires ThreadsOk(f, s) && k < |s.threads| && s.threads[k].pc.Ready?
    ensures Leads(f, s, t) && ThreadsOk(f, t) && SameRanges(s, t)
    ensures t.threads == s.threads[k := t.threads[k]] && Finished(t.threads[k])
    ensures forall c: Counter :: Lost(f, t, c) == Lost(f, s, c)
  {
    StoresBounds(f, s.threads[k], Total);
    t := RunTo(f, s, k, Total, Want(f, s.threads[k], Total), true);
    forall c: Counter
      ensures Lost(f, t, c) == Lost(f, s, c)
    {
      AloneLosesNothing(f, s, t, k, c);
    }
  }

  /** All threads below n except those in `skip` are finished in t; the others are as in s. */
  ghost predicate OthersDone(s: State, t: State, skip: set<nat>, n: nat) {
    && SameRanges(s, t)
    && forall k: nat :: k < |s.threads| ==>
         if k < n && k !in skip then Finished(t.threads[k]) else t.threads[k] == s.threads[k]
  }

  /** Threads below n run to their end one after the other, except those in `skip`. */
  lemma {:induction false} RunOthers(f: int -> Outcome, s: State, skip: set<nat>, n: nat) returns (t: State)
    requires ThreadsOk(f, s) && n <= |s.threads|
    requires forall k: nat :: k < |s.threads| && k !in skip ==> s.threads[k].pc.Ready?
    ensures Leads(f, s, t) && ThreadsOk(f, t) && OthersDone(s, t, skip, n)
    ensures forall c: Counter :: Lost(f, t, c) == Lost(f, s, c)
  {
    if n == 0 {
      LeadsSelf(f, s);
      t := s;
    } else {
      var u := RunOthers(f, s, skip, n - 1);
      t := u;
      if n - 1 !in skip {
        t := RunToEnd(f, u, n - 1);
        LeadsTrans(f, s, u, t);
      }
    }
  }

  /** Nothing has happened yet. */
  ghost predicate Fresh(f: int -> Outcome, s: State) {
    && ThreadsOk(f, s) && s.shared == ZERO
    && forall k :: 0 <= k < |s.threads| ==> s.threads[k].pc.Ready? && s.threads[k].next == s.threads[k].start
  }

  lemma FreshStores(f: int -> Outcome, s: State, c: Counter)
    requires Fresh(f, s)
    ensures forall k :: 0 <= k < |s.threads| ==> StoresBy(f, s.threads[k], c) == 0
    ensures Sum(s.threads, Stores(f, c)) == 0 && Get(s.shared, c) == 0 && Lost(f, s, c) == 0
  {
    GetZero(c);
    SumBounds(s.threads, Stores(f, c), 0, 0);
  }

  /** Every thread runs after the other: nothing is lost. */
  lemma RunInTurn(f: int -> Outcome, s: State) returns (t: State)
    requires Fresh(f, s)
    ensures Leads(f, s, t) && ThreadsOk(f, t) && SameRanges(s, t) && Joined(t)
    ensures forall c: Counter :: Lost(f, t, c) == 0
  {
    t := RunOthers(f, s, {}, |s.threads|);
    forall c: Counter
      ensures Lost(f, t, c) == 0
    {
      FreshStores(f, s, c);
    }
  }

  // ----- Constructions: runs of single threads one after the other, from a fresh state -----

  lemma LeadsKeeps(f: int -> Outcome, s: State, t: State)
    requires ThreadsOk(f, s) && Leads(f, s, t)
    ensures ThreadsOk(f, t) && SameRanges(s, t)
  {
    var steps :| IsSchedule(f, Nosync, s, steps) && After(f, Nosync, s, steps) == t;
    LeftAlong(f, Nosync, s, steps);
    RangesAlong(f, Nosync, s, steps);
  }

  /** RunTo from a state reached from s0, as far as counter c is concerned. */
  lemma RunOn(f: int -> Outcome, s0: State, s: State, k: nat, c: Counter, m: int, loaded: bool) returns (t: State)
    requires Fresh(f, s0) && Leads(f, s0, s) && k < |s0.threads| == |s.threads|
    requires StoresBy(f, s.threads[k], c) <= m <= Want(f, s0.threads[k], c)
    requires !loaded && StoresBy(f, s.threads[k], c) == m ==> !Pending(s.threads[k].pc, c)
    ensures Leads(f, s0, t) && |t.threads| == |s0.threads|
    ensures forall i: nat :: i < |s0.threads| && i != k ==> t.threads[i] == s.threads[i]
    ensures if m < Want(f, s0.threads[k], c) then Halts(f, t.threads[k], c, m, loaded) else Finished(t.threads[k])
    ensures Base(t, k, c) == Base(s, k, c) + m - StoresBy(f, s.threads[k], c)
    ensures forall d: Counter :: d != c && !Pending(s.threads[k].pc, d) ==> Lost(f, t, d) == Lost(f, s, d)
  {
    LeadsKeeps(f, s0, s);
    t := RunTo(f, s, k, c, m, loaded);
    LeadsTrans(f, s0, s, t);
    if m == Want(f, s0.threads[k], c) {
      FinishedStores(f, t.threads[k], c);
    }
    forall d: Counter | d != c && !Pending(s.threads[k].pc, d)
      ensures Lost(f, t, d) == Lost(f, s, d)
    {
      AloneLosesNothing(f, s, t, k, d);
    }
  }

  /** RunOthers from a state reached from s0. */
  lemma RunRest(f: int -> Outcome, s0: State, s: State, skip: set<nat>) returns (t: State)
    requires Fresh(f, s0) && Leads(f, s0, s) && |s0.threads| == |s.threads|
    requires forall k: nat :: k < |s.threads| && k !in skip ==> s.threads[k].pc.Ready?
    ensures Leads(f, s0, t) && |t.threads| == |s0.threads|
    ensures forall k: nat :: k < |s0.threads| ==> if k in skip then t.threads[k] == s.threads[k] else Finished(t.threads[k])
    ensures forall c: Counter :: Lost(f, t, c) == Lost(f, s, c)
  {
    LeadsKeeps(f, s0, s);
    t := RunOthers(f, s, skip, |s.threads|);
    LeadsTrans(f, s0, s, t);
  }

  /** Thread i has loaded c, in which nothing is stored yet, and all others but those in `skip` are done. */
  lemma LoadFirst(f: int -> Outcome, s: State, c: Counter, i: nat, skip: set<nat>) returns (t: State)
    requires Fresh(f, s) && i < |s.threads| && 0 < Want(f, s.threads[i], c) && i in skip
    ensures Leads(f, s, t) && |t.threads| == |s.threads|
    ensures Halts(f, t.threads[i], c, 0, true) && Base(t, i, c) == 0
    ensures forall k: nat :: k < |s.threads| && k != i ==>
      if k in skip then t.threads[k] == s.threads[k] else Finished(t.threads[k])
    ensures forall d: Counter :: d != c ==> Lost(f, t, d) == 0
  {
    FreshStores(f, s, c);
    LeadsSelf(f, s);
    var u := RunOn(f, s, s, i, c, 0, true);
    t := RunRest(f, s, u, skip);
    forall d: Counter | d != c
      ensures Lost(f, t, d) == 0
    {
      FreshStores(f, s, d);
    }
  }

  /** Thread i loads c, all others run to their end, thread i stores: the hits of all other parts on c are
      lost, and nothing else is. */
  lemma LoseAllOthers(f: int -> Outcome, s: State, c: Counter, i: nat) returns (t: State)
    requires Fresh(f, s) && i < |s.threads| && 0 < Want(f, s.threads[i], c)
    ensures Leads(f, s, t) && ThreadsOk(f, t) && SameRanges(s, t) && Joined(t)
    ensures Get(t.shared, c) == Want(f, s.threads[i], c)
    ensures forall d: Counter :: d != c ==> Lost(f, t, d) == 0
  {
    var u := LoadFirst(f, s, c, i, {i});
    t := RunOn(f, s, u, i, c, Want(f, s.threads[i], c), true);
    LeadsKeeps(f, s, t);
  }

  /** Thread i loads c before anything is stored, thread j runs to just before its last load of c, and thread
      i stores 1. */
  lemma BackToOne(f: int -> Outcome, s: State, c: Counter, i: nat, j: nat) returns (t: State)
    requires Fresh(f, s) && i < |s.threads| && j < |s.threads| && i != j
    requires 2 <= Want(f, s.threads[i], c) && 2 <= Want(f, s.threads[j], c)
    ensures Leads(f, s, t) && |t.threads| == |s.threads| && Get(t.shared, c) == 1
    ensures Halts(f, t.threads[i], c, 1, false) && Halts(f, t.threads[j], c, Want(f, s.threads[j], c) - 1, false)
    ensures forall k: nat :: k < |s.threads| && k != i && k != j ==> Finished(t.threads[k])
  {
    FreshStores(f, s, c);
    var u := LoadFirst(f, s, c, i, {i, j});
    var v := RunOn(f, s, u, j, c, Want(f, s.threads[j], c) - 1, false);
    assert v.threads[i] == u.threads[i];
    t := RunOn(f, s, v, i, c, 1, false);
    assert t.threads[j] == v.threads[j];
  }

  /** Two threads that hit c at least twice each can leave only two hits in it, whatever the others do: from
      there thread j loads the 1, thread i runs to its end and thread j stores 2. */
  lemma LoseAllButTwo(f: int -> Outcome, s: State, c: Counter, i: nat, j: nat) returns (t: State)
    requires Fresh(f, s) && i < |s.threads| && j < |s.threads| && i != j
    requires 2 <= Want(f, s.threads[i], c) && 2 <= Want(f, s.threads[j], c)
    ensures Leads(f, s, t) && ThreadsOk(f, t) && SameRanges(s, t) && Joined(t)
    ensures Get(t.shared, c) == 2
  {
    var u := BackToOne(f, s, c, i, j);
    var v := RunOn(f, s, u, j, c, Want(f, s.threads[j], c) - 1, true);
    assert v.threads[i] == u.threads[i] && Base(v, j, c) == 1;
    var w := RunOn(f, s, v, i, c, Want(f, s.threads[i], c), true);
    assert w.threads[j] == v.threads[j] && Base(w, j, c) == 1;
    t := RunOn(f, s, w, j, c, Want(f, s.threads[j], c), true);
    LeadsKeeps(f, s, t);
  }
}
