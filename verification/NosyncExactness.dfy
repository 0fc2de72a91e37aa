/** Exactly when nosync is right: conditions on the trials and the partition that hold before the run.

    Source: the SYNC_NOSYNC branch of record_trial_result (src/thread_mode.c), result_validate (src/result.c). */
module NosyncExactness {
  import opened Words
  import opened Tallies
  import opened Checksums
  import opened Sums
  import opened Partitions
  import opened ThreadMode
  import opened ThreadModeProofs
  import opened NosyncRuns
  import opened Simulation

  /** How often part i of the trials hits counter c. */
  function PartHits(f: int -> Outcome, base: int, n: nat, count: nat, i: nat, c: Counter): int
    requires 0 < count
  {
    Get(RangeTally(f, base + PartStart(n, count, i), base + PartEnd(n, count, i)), c)
  }

  lemma InitFresh(f: int -> Outcome, base: int, n: nat, count: nat)
    requires 0 < count
    ensures var s := Init(base, n, count, count);
      && Fresh(f, s) && |s.threads| == count
      && forall i: nat, c: Counter :: i < count ==> Want(f, s.threads[i], c) == PartHits(f, base, n, count, i, c)
  {
    InitOk(f, base, n, count, count);
  }

  lemma PartHitsNonNegative(f: int -> Outcome, base: int, n: nat, count: nat, i: nat, c: Counter)
    requires i < count
    ensures 0 <= PartHits(f, base, n, count, i, c)
  {
    PartsJoin(n, count, i);
    CountersWithinTrials(f, base + PartStart(n, count, i), base + PartEnd(n, count, i));
  }

  lemma EndIsOutcome(f: int -> Outcome, base: int, n: nat, count: nat, t: State)
    requires 0 < count && Leads(f, Init(base, n, count, count), t) && Joined(t)
    ensures IsOutcome(f, Nosync, base, n, count, t.shared)
  {
    var s := Init(base, n, count, count);
    var steps :| IsSchedule(f, Nosync, s, steps) && After(f, Nosync, s, steps) == t;
    assert Output(Nosync, t, count) == t.shared;
  }

  lemma SumWhenJoined(f: int -> Outcome, t: State, lo: int, hi: int, c: Counter)
    requires Chained(t, lo, hi) && ThreadsOk(f, t) && Joined(t)
    ensures Sum(t.threads, Stores(f, c)) == Get(RangeTally(f, lo, hi), c)
  {
    JoinedIsWhole(f, t, lo, hi);
    StoresAreDone(f, t.threads, c);
  }

  lemma EndSum(f: int -> Outcome, base: int, n: nat, count: nat, t: State, c: Counter)
    requires 0 < count && SameRanges(Init(base, n, count, count), t) && ThreadsOk(f, t) && Joined(t)
    ensures Sum(t.threads, Stores(f, c)) == Get(RangeTally(f, base, base + n), c)
  {
    ChainedInit(base, n, count);
    SumWhenJoined(f, t, base, base + n, c);
  }

  // ----- A counter that only one part hits is exact -----

  ghost predicate OnlyPart(f: int -> Outcome, base: int, n: nat, count: nat, k: nat, c: Counter)
    requires 0 < count
  {
    forall i: nat :: i < count && i != k ==> PartHits(f, base, n, count, i, c) == 0
  }

  /** Only thread k ever stores to c, so what it has loaded is still what the cell holds. */
  ghost predicate OneWriter(f: int -> Outcome, s: State, k: nat, c: Counter) {
    && k < |s.threads| && ThreadsOk(f, s)
    && Lost(f, s, c) == 0
    && (Pending(s.threads[k].pc, c) ==> s.threads[k].pc.reg.v == Get(s.shared, c))
    && forall i: nat :: i < |s.threads| && i != k ==> Want(f, s.threads[i], c) == 0
  }

  lemma OneWriterStep(f: int -> Outcome, s: State, step: Step, k: nat, c: Counter)
    requires OneWriter(f, s, k, c) && Enabled(Nosync, s, step)
    ensures OneWriter(f, Do(f, Nosync, s, step), k, c)
  {
    assert ThreadOk(f, s.threads[step.k]);
    StoresBounds(f, s.threads[step.k], c);
    ThreadStep(f, Nosync, s, step);
    StoresStep(f, Nosync, s, step, c);
    SharedStep(f, Nosync, s, step, c);
    OthersUnchanged(f, Nosync, s, step);
  }

  lemma {:induction false} OneWriterAlong(f: int -> Outcome, s: State, steps: seq<Step>, k: nat, c: Counter)
    requires OneWriter(f, s, k, c) && IsSchedule(f, Nosync, s, steps)
    ensures OneWriter(f, After(f, Nosync, s, steps), k, c)
    decreases |steps|
  {
    if steps != [] {
      OneWriterStep(f, s, steps[0], k, c);
      OneWriterAlong(f, Do(f, Nosync, s, steps[0]), steps[1..], k, c);
    }
  }

  lemma OnlyPartIsExact(f: int -> Outcome, base: int, n: nat, count: nat, k: nat, c: Counter, r: Tally)
    requires k < count && OnlyPart(f, base, n, count, k, c) && IsOutcome(f, Nosync, base, n, count, r)
    ensures Get(r, c) == Get(RangeTally(f, base, base + n), c)
  {
    var s := Init(base, n, count, count);
    var steps :| IsSchedule(f, Nosync, s, steps) && Joined(After(f, Nosync, s, steps))
                 && r == Output(Nosync, After(f, Nosync, s, steps), count);
    InitFresh(f, base, n, count);
    FreshStores(f, s, c);
    OneWriterAlong(f, s, steps, k, c);
    RangesAlong(f, Nosync, s, steps);
    EndSum(f, base, n, count, After(f, Nosync, s, steps), c);
  }

  // ----- A counter that every hitting part hits twice ends with at least 2 -----

  /** A thread that has stored to c builds on at least 1, and the cell can hold 1 only while some thread
      has stored to it exactly once. */
  ghost predicate NotOnce(f: int -> Outcome, s: State, c: Counter) {
    && ThreadsOk(f, s) && 0 <= Get(s.shared, c)
    && (forall i: nat :: i < |s.threads| ==> BuildsUp(f, s, i, c))
    && (Get(s.shared, c) == 1 ==> exists i: nat :: i < |s.threads| && StoresBy(f, s.threads[i], c) == 1)
  }

  ghost predicate BuildsUp(f: int -> Outcome, s: State, i: nat, c: Counter)
    requires i < |s.threads|
  {
    0 <= Base(s, i, c) && (0 < StoresBy(f, s.threads[i], c) ==> 0 < Base(s, i, c) && 0 < Get(s.shared, c))
  }

  lemma BuildsUpStep(f: int -> Outcome, s: State, step: Step, i: nat, c: Counter)
    requires NotOnce(f, s, c) && Enabled(Nosync, s, step) && i < |s.threads|
    ensures BuildsUp(f, Do(f, Nosync, s, step), i, c) && 0 <= Get(Do(f, Nosync, s, step).shared, c)
  {
    assert ThreadOk(f, s.threads[step.k]) && BuildsUp(f, s, step.k, c) && BuildsUp(f, s, i, c);
    StoresByStep(f, Nosync, s, step, c);
    SharedStep(f, Nosync, s, step, c);
    OthersUnchanged(f, Nosync, s, step);
    StoresBounds(f, s.threads[step.k], c);
  }

  lemma NotOnceStep(f: int -> Outcome, s: State, step: Step, c: Counter)
    requires NotOnce(f, s, c) && Enabled(Nosync, s, step)
    ensures NotOnce(f, Do(f, Nosync, s, step), c)
  {
    var t := Do(f, Nosync, s, step);
    ThreadStep(f, Nosync, s, step);
    OthersUnchanged(f, Nosync, s, step);
    forall i: nat | i < |t.threads|
      ensures BuildsUp(f, t, i, c) && 0 <= Get(t.shared, c)
    {
      BuildsUpStep(f, s, step, i, c);
    }
    BuildsUpStep(f, s, step, step.k, c);
    StoresByStep(f, Nosync, s, step, c);
    SharedStep(f, Nosync, s, step, c);
    if Get(t.shared, c) == 1 {
      if step.Store? && s.threads[step.k].pc.todo[0] == c {
        assert BuildsUp(f, s, step.k, c);
        assert Base(s, step.k, c) == 0;
        StoresBounds(f, s.threads[step.k], c);
        assert StoresBy(f, t.threads[step.k], c) == 1;
      } else {
        var i: nat :| i < |s.threads| && StoresBy(f, s.threads[i], c) == 1;
        assert StoresBy(f, t.threads[i], c) == 1;
      }
    }
  }

  lemma {:induction false} NotOnceAlong(f: int -> Outcome, s: State, steps: seq<Step>, c: Counter)
    requires NotOnce(f, s, c) && IsSchedule(f, Nosync, s, steps)
    ensures NotOnce(f, After(f, Nosync, s, steps), c)
    decreases |steps|
  {
    if steps != [] {
      NotOnceStep(f, s, steps[0], c);
      NotOnceAlong(f, Do(f, Nosync, s, steps[0]), steps[1..], c);
    }
  }

  lemma NoPartOnceMeansNotOne(f: int -> Outcome, base: int, n: nat, count: nat, c: Counter, r: Tally)
    requires 0 < count && IsOutcome(f, Nosync, base, n, count, r)
    requires forall i: nat :: i < count ==> PartHits(f, base, n, count, i, c) != 1
    ensures Get(r, c) != 1
  {
    var s := Init(base, n, count, count);
    var steps :| IsSchedule(f, Nosync, s, steps) && Joined(After(f, Nosync, s, steps))
                 && r == Output(Nosync, After(f, Nosync, s, steps), count);
    InitFresh(f, base, n, count);
    FreshStores(f, s, c);
    NotOnceAlong(f, s, steps, c);
    RangesAlong(f, Nosync, s, steps);
    var t := After(f, Nosync, s, steps);
    forall i: nat | i < count
      ensures StoresBy(f, t.threads[i], c) != 1
    {
      FinishedStores(f, t.threads[i], c);
      assert Want(f, s.threads[i], c) == PartHits(f, base, n, count, i, c);
    }
  }

  // ----- The range of a counter over all interleavings -----

  ghost predicate OnePart(f: int -> Outcome, base: int, n: nat, count: nat, c: Counter)
    requires 0 < count
  {
    exists k: nat :: k < count && OnlyPart(f, base, n, count, k, c)
  }

  lemma TwoParts(f: int -> Outcome, base: int, n: nat, count: nat, c: Counter) returns (i: nat, j: nat)
    requires 0 < count && !OnePart(f, base, n, count, c)
    ensures i < count && j < count && i != j
    ensures 0 < PartHits(f, base, n, count, i, c) && 0 < PartHits(f, base, n, count, j, c)
  {
    assert !OnlyPart(f, base, n, count, 0, c);
    i :| i < count && PartHits(f, base, n, count, i, c) != 0;
    assert !OnlyPart(f, base, n, count, i, c);
    j :| j < count && j != i && PartHits(f, base, n, count, j, c) != 0;
    PartHitsNonNegative(f, base, n, count, i, c);
    PartHitsNonNegative(f, base, n, count, j, c);
  }

  /** The least value a counter can end with. */
  ghost function Least(f: int -> Outcome, base: int, n: nat, count: nat, c: Counter): int
    requires 0 < count
  {
    if OnePart(f, base, n, count, c) then Get(RangeTally(f, base, base + n), c)
    else if exists i: nat :: i < count && PartHits(f, base, n, count, i, c) == 1 then 1
    else 2
  }

  lemma AtLeastLeast(f: int -> Outcome, base: int, n: nat, count: nat, c: Counter, r: Tally)
    requires 0 < count && IsOutcome(f, Nosync, base, n, count, r)
    ensures Least(f, base, n, count, c) <= Get(r, c)
  {
    NosyncNeverOvercounts(f, base, n, count, r);
    if k: nat :| k < count && OnlyPart(f, base, n, count, k, c) {
      OnlyPartIsExact(f, base, n, count, k, c, r);
    } else {
      var i, j := TwoParts(f, base, n, count, c);
      PartBelowWhole(f, base, n, count, i, c);
      assert 0 < Get(r, c);
      if forall i: nat :: i < count ==> PartHits(f, base, n, count, i, c) != 1 {
        NoPartOnceMeansNotOne(f, base, n, count, c, r);
      }
    }
  }

  lemma PartBelowWhole(f: int -> Outcome, base: int, n: nat, count: nat, i: nat, c: Counter)
    requires i < count
    ensures PartHits(f, base, n, count, i, c) <= Get(RangeTally(f, base, base + n), c)
  {
    var s, e := base + PartStart(n, count, i), base + PartEnd(n, count, i);
    PartArithmeticFits(n, count, i);
    RangeSplit(f, base, s, e);
    GetAdd(RangeTally(f, base, s), RangeTally(f, s, e), c);
    RangeMonotone(f, base, s, e, c);
    RangeMonotone(f, base, e, base + n, c);
  }

  lemma LeastIsReached(f: int -> Outcome, base: int, n: nat, count: nat, c: Counter) returns (r: Tally)
    requires 0 < count
    ensures IsOutcome(f, Nosync, base, n, count, r) && Get(r, c) == Least(f, base, n, count, c)
  {
    if OnePart(f, base, n, count, c) {
      r := SequentialIsReached(f, base, n, count);
    } else {
      var s := Init(base, n, count, count);
      InitFresh(f, base, n, count);
      var i, j := TwoParts(f, base, n, count, c);
      var t;
      if k: nat :| k < count && PartHits(f, base, n, count, k, c) == 1 {
        t := LoseAllOthers(f, s, c, k);
      } else {
        assert PartHits(f, base, n, count, i, c) != 1 && PartHits(f, base, n, count, j, c) != 1;
        t := LoseAllButTwo(f, s, c, i, j);
      }
      EndIsOutcome(f, base, n, count, t);
      r := t.shared;
    }
  }

  lemma SequentialIsReached(f: int -> Outcome, base: int, n: nat, count: nat) returns (r: Tally)
    requires 0 < count
    ensures IsOutcome(f, Nosync, base, n, count, r) && r == RangeTally(f, base, base + n)
  {
    InitFresh(f, base, n, count);
    var t := RunInTurn(f, Init(base, n, count, count));
    EndIsOutcome(f, base, n, count, t);
    r := t.shared;
    forall c: Counter
      ensures Get(r, c) == Get(RangeTally(f, base, base + n), c)
    {
      EndSum(f, base, n, count, t, c);
      assert Lost(f, t, c) == 0;
    }
    TallyExtensional(r, RangeTally(f, base, base + n));
  }

  /** The values a counter can end with lie between `Least` and the sequential value, and both ends are
      reached: with two or more parts that hit it, all but one or two of its updates can be lost. */
  lemma NosyncRange(f: int -> Outcome, base: int, n: nat, count: nat, c: Counter)
    requires 0 < count
    ensures var q := RangeTally(f, base, base + n);
      && (forall r :: IsOutcome(f, Nosync, base, n, count, r) ==> Least(f, base, n, count, c) <= Get(r, c) <= Get(q, c))
      && (exists r :: IsOutcome(f, Nosync, base, n, count, r) && Get(r, c) == Least(f, base, n, count, c))
      && IsOutcome(f, Nosync, base, n, count, q)
  {
    forall r | IsOutcome(f, Nosync, base, n, count, r)
      ensures Least(f, base, n, count, c) <= Get(r, c) <= Get(RangeTally(f, base, base + n), c)
    {
      AtLeastLeast(f, base, n, count, c, r);
      NosyncNeverOvercounts(f, base, n, count, r);
    }
    var low := LeastIsReached(f, base, n, count, c);
    var high := SequentialIsReached(f, base, n, count);
  }

  // ----- When is every nosync run right? -----

  lemma LosesOnly(f: int -> Outcome, s: State, lo: int, hi: int, c: Counter, i: nat, j: nat) returns (t: State)
    requires Fresh(f, s) && Chained(s, lo, hi) && i < |s.threads| && j < |s.threads| && i != j
    requires 0 < Want(f, s.threads[i], c) && 0 < Want(f, s.threads[j], c)
    ensures Leads(f, s, t) && Joined(t) && Get(t.shared, c) < Get(RangeTally(f, lo, hi), c)
    ensures forall d: Counter :: d != c ==> Get(t.shared, d) == Get(RangeTally(f, lo, hi), d)
  {
    t := LoseAllOthers(f, s, c, i);
    assert Chained(t, lo, hi);
    forall d: Counter
      ensures Sum(t.threads, Stores(f, d)) == Get(RangeTally(f, lo, hi), d)
    {
      SumWhenJoined(f, t, lo, hi, d);
    }
    forall d: Counter | d != c
      ensures Get(t.shared, d) == Get(RangeTally(f, lo, hi), d)
    {
      assert Lost(f, t, d) == 0;
    }
    TwoWants(f, t, i, j, c);
  }

  lemma LosingRunTo(f: int -> Outcome, base: int, n: nat, hi: int, count: nat, c: Counter) returns (r: Tally)
    requires 0 < count && hi == base + n && !OnePart(f, base, n, count, c)
    ensures IsOutcome(f, Nosync, base, n, count, r) && Get(r, c) < Get(RangeTally(f, base, hi), c)
    ensures forall d: Counter :: d != c ==> Get(r, d) == Get(RangeTally(f, base, hi), d)
  {
    var s := Init(base, n, count, count);
    InitFresh(f, base, n, count);
    ChainedInit(base, n, count);
    var i, j := TwoParts(f, base, n, count, c);
    var t := LosesOnly(f, s, base, hi, c, i, j);
    r := t.shared;
    EndIsOutcome(f, base, n, count, t);
  }

  /** If two parts hit c, some run loses updates of c and of nothing else. */
  lemma SomeRunLosesOnly(f: int -> Outcome, base: int, n: nat, count: nat, c: Counter) returns (r: Tally)
    requires 0 < count && !OnePart(f, base, n, count, c)
    ensures IsOutcome(f, Nosync, base, n, count, r) && Get(r, c) < Get(RangeTally(f, base, base + n), c)
    ensures forall d: Counter :: d != c ==> Get(r, d) == Get(RangeTally(f, base, base + n), d)
  {
    r := LosingRunTo(f, base, n, base + n, count, c);
  }

  lemma TwoWants(f: int -> Outcome, t: State, i: nat, j: nat, c: Counter)
    requires ThreadsOk(f, t) && Joined(t) && i < |t.threads| && j < |t.threads| && i != j
    ensures Want(f, t.threads[i], c) + Want(f, t.threads[j], c) <= Sum(t.threads, Stores(f, c))
  {
    forall th <- t.threads
      ensures 0 <= StoresBy(f, th, c)
    {
      assert ThreadOk(f, th);
      StoresBounds(f, th, c);
    }
    FinishedStores(f, t.threads[i], c);
    FinishedStores(f, t.threads[j], c);
    SumAtLeastTwo(t.threads, i, j, Stores(f, c));
  }

  /** No trial outside part k collides. */
  ghost predicate CollisionsOnlyIn(f: int -> Outcome, n: nat, count: nat, k: nat)
    requires 0 < count
  {
    forall i, x :: 0 <= i < count && i != k && PartStart(n, count, i) <= x < PartEnd(n, count, i) ==> !f(x).collided
  }

  lemma {:induction false} NoCollisions(f: int -> Outcome, lo: int, hi: int)
    requires lo <= hi
    ensures Get(RangeTally(f, lo, hi), Collisions) == 0 <==> forall x :: lo <= x < hi ==> !f(x).collided
    decreases hi - lo
  {
    if lo < hi {
      NoCollisions(f, lo, hi - 1);
      CountersWithinTrials(f, lo, hi - 1);
      assert 0 <= Get(RangeTally(f, lo, hi - 1), Collisions);
    }
  }

  lemma OnlyPartCollides(f: int -> Outcome, n: nat, count: nat, k: nat)
    requires k < count
    ensures CollisionsOnlyIn(f, n, count, k) <==> OnlyPart(f, 0, n, count, k, Collisions)
  {
    forall i: nat | i < count
      ensures PartHits(f, 0, n, count, i, Collisions) == 0 <==>
              forall x :: PartStart(n, count, i) <= x < PartEnd(n, count, i) ==> !f(x).collided
    {
      PartsJoin(n, count, i);
      NoCollisions(f, PartStart(n, count, i), PartEnd(n, count, i));
    }
  }

  /** `valid == 1` makes every nosync result right exactly when all colliding trials lie in one thread's
      part; the trials and the partition decide this before the run. */
  lemma ValidityIsExactIff(f: int -> Outcome, n: nat, count: nat)
    requires 0 < count && 0 < n
    ensures (forall r :: IsOutcome(f, Nosync, 0, n, count, r) && IsValid(r, n) ==> r == RangeTally(f, 0, n))
       <==> exists k :: 0 <= k < count && CollisionsOnlyIn(f, n, count, k)
  {
    var q := RangeTally(f, 0, n);
    SequentialIsValid(f, n);
    if k :| 0 <= k < count && CollisionsOnlyIn(f, n, count, k) {
      OnlyPartCollides(f, n, count, k);
      forall r | IsOutcome(f, Nosync, 0, n, count, r) && IsValid(r, n)
        ensures r == q
      {
        NosyncNeverOvercounts(f, 0, n, count, r);
        ValidityOfUndercount(r, q, n);
        OnlyPartIsExact(f, 0, n, count, k, Collisions, r);
      }
    } else {
      forall k: nat | k < count
        ensures !OnlyPart(f, 0, n, count, k, Collisions)
      {
        OnlyPartCollides(f, n, count, k);
      }
      var r := ValidButWrong(f, n, count);
    }
  }

  /** A run that loses collisions and nothing else passes the validity check. */
  lemma ValidButWrong(f: int -> Outcome, n: nat, count: nat) returns (r: Tally)
    requires 0 < count && 0 < n && !OnePart(f, 0, n, count, Collisions)
    ensures IsOutcome(f, Nosync, 0, n, count, r) && IsValid(r, n)
    ensures r.collisions < RangeTally(f, 0, n).collisions
  {
    var q := RangeTally(f, 0, n);
    r := SomeRunLosesOnly(f, 0, n, count, Collisions);
    assert Get(r, Total) == Get(q, Total);
    BucketsAgree(r, q);
    SequentialIsValid(f, n);
    NosyncNeverOvercounts(f, 0, n, count, r);
    ValidityOfUndercount(r, q, n);
  }

  lemma BucketsAgree(r: Tally, q: Tally)
    requires forall c: Counter :: c.Bucket? ==> Get(r, c) == Get(q, c)
    ensures r.hist == q.hist
  {
    forall i: int | 0 <= i < RISK_BUCKETS
      ensures r.hist[i] == q.hist[i]
    {
      assert Get(r, Bucket(i)) == Get(q, Bucket(i));
    }
  }

  /** Every nosync run is right exactly when there is only one thread or only one trial. */
  lemma NosyncIsExactIff(f: int -> Outcome, base: int, n: nat, count: nat)
    requires 0 < count && 0 < n
    ensures (forall r :: IsOutcome(f, Nosync, base, n, count, r) ==> r == RangeTally(f, base, base + n))
       <==> count == 1 || n == 1
  {
    var q := RangeTally(f, base, base + n);
    if count == 1 || n == 1 {
      forall r | IsOutcome(f, Nosync, base, n, count, r)
        ensures r == q
      {
        forall c: Counter
          ensures Get(r, c) == Get(q, c)
        {
          OnlyFirstPart(f, base, n, count, c);
          OnlyPartIsExact(f, base, n, count, 0, c, r);
        }
        TallyExtensional(r, q);
      }
    } else {
      FirstTwoParts(f, base, n, count);
      var r := SomeRunLosesOnly(f, base, n, count, Total);
    }
  }

  lemma OnlyFirstPart(f: int -> Outcome, base: int, n: nat, count: nat, c: Counter)
    requires 0 < count && (count == 1 || n == 1)
    ensures OnlyPart(f, base, n, count, 0, c)
  {
    forall i: nat | i < count && i != 0
      ensures PartHits(f, base, n, count, i, c) == 0
    {
      assert n / count == 0 && n % count == 1;
      GetZero(c);
    }
  }

  lemma PartNotEmpty(n: nat, count: nat, i: nat)
    requires i < count && i < n
    ensures PartStart(n, count, i) < PartEnd(n, count, i)
  {
    if n < count {
      assert n / count == 0 && n % count == n;
    } else {
      assert 1 <= n / count;
    }
  }

  lemma FirstTwoParts(f: int -> Outcome, base: int, n: nat, count: nat)
    requires 1 < count && 1 < n
    ensures !OnePart(f, base, n, count, Total)
  {
    forall i: nat | i < 2
      ensures 0 < PartHits(f, base, n, count, i, Total)
    {
      PartNotEmpty(n, count, i);
      CountersWithinTrials(f, base + PartStart(n, count, i), base + PartEnd(n, count, i));
    }
    forall k: nat | k < count
      ensures !OnlyPart(f, base, n, count, k, Total)
    {
      var i := if k == 0 then 1 else 0;
      assert 0 < PartHits(f, base, n, count, i, Total);
    }
  }

  // ----- A configuration of the program for which validity is not enough -----

  /** With seed 3761, two trials on two threads and at least eight time steps (the default is 50), some
      nosync run loses one of the two collisions and still reports valid. */
  lemma ValidityAloneMissesALostCollision(seed: Word32, timeSteps: int) returns (r: Tally)
    requires seed == 3761 && 8 <= timeSteps
    ensures IsOutcome(Trials(seed, timeSteps), Nosync, 0, 2, 2, r) && IsValid(r, 2)
    ensures r.collisions < RangeTally(Trials(seed, timeSteps), 0, 2).collisions
  {
    BothTrialsCollide(seed, timeSteps);
    TwoTrialsTwoParts(Trials(seed, timeSteps));
    r := ValidButWrong(Trials(seed, timeSteps), 2, 2);
  }

  lemma TwoTrialsTwoParts(f: int -> Outcome)
    requires f(0).collided && f(1).collided
    ensures !OnePart(f, 0, 2, 2, Collisions)
  {
    assert PartStart(2, 2, 0) == 0 && PartEnd(2, 2, 0) == 1 == PartStart(2, 2, 1) && PartEnd(2, 2, 1) == 2;
    NoCollisions(f, 0, 1);
    NoCollisions(f, 1, 2);
    assert PartHits(f, 0, 2, 2, 0, Collisions) != 0 && PartHits(f, 0, 2, 2, 1, Collisions) != 0;
    assert !OnlyPart(f, 0, 2, 2, 0, Collisions) && !OnlyPart(f, 0, 2, 2, 1, Collisions);
  }
}
