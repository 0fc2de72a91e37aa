/** What a trial computes, said without the functions that compute it: the parameters behind a seed, the
    motion of both vehicles in closed form, and the risk of the outcome in terms of that motion.

    Source: src/simulation.c. Numbers are written out here, so that a changed constant, draw or branch in
    module Simulation contradicts one of these laws. */
module TrialLaws {
  import opened Words
  import opened Simulation

  // ----- Parameters -----

  /** The 32-bit draw behind a parameter that was scaled to [min, max]. */
  function Undo(x: real, min: real, max: real): real
    requires min < max
  {
    (x - min) / (max - min) * 4294967295.0
  }

  lemma UndoScale(v: Word32, min: real, max: real)
    requires min < max
    ensures Undo(Scale(v, min, max), min, max) == v as real
    ensures min <= Scale(v, min, max) <= max
  {
    var unit := v as real / 4294967295.0;
    var width := max - min;
    assert Scale(v, min, max) - min == width * unit;
    assert width * unit / width == unit;
    ScaleInRange(v, min, max);
  }

  /** The seven draws after a seed. */
  ghost predicate AreDraws(seed: Word32, u: seq<Word32>) {
    && |u| == 7
    && u[0] as int == (seed as int * 1664525 + 1013904223) % 0x1_0000_0000
    && forall k :: 0 <= k < 6 ==> u[k + 1] as int == (u[k] as int * 1664525 + 1013904223) % 0x1_0000_0000
  }

  function DrawsOf(seed: Word32): seq<Word32> {
    [Draw(seed, 1), Draw(seed, 2), Draw(seed, 3), Draw(seed, 4), Draw(seed, 5), Draw(seed, 6), Draw(seed, 7)]
  }

  lemma DrawsOfSeed(seed: Word32)
    ensures AreDraws(seed, DrawsOf(seed))
  {
    assert Draw(seed, 0) == seed && Draw(seed, 1) == Lcg(seed);
  }

  /** Undoing the ranges gives back the seven draws in the order of the parameters; the speeds are in km/h
      before their conversion. */
  lemma ParametersFromDraws(seed: Word32) returns (u: seq<Word32>)
    ensures AreDraws(seed, u)
    ensures var p := Params(seed);
      && Undo(p.egoSpeed * 3.6, 60.0, 120.0) == u[0] as real
      && Undo(p.frontSpeed * 3.6, 40.0, 110.0) == u[1] as real
      && Undo(p.initialDistance, 5.0, 100.0) == u[2] as real
      && Undo(p.reactionTime, 0.5, 2.5) == u[3] as real
      && Undo(p.egoDeceleration, 3.0, 9.0) == u[4] as real
      && Undo(p.frontDeceleration, 2.0, 10.0) == u[5] as real
      && Undo(p.roadFactor, 0.5, 1.0) == u[6] as real
  {
    u := DrawsOf(seed);
    DrawsOfSeed(seed);
    UndoScale(u[0], 60.0, 120.0);
    UndoScale(u[1], 40.0, 110.0);
    UndoScale(u[2], 5.0, 100.0);
    UndoScale(u[3], 0.5, 2.5);
    UndoScale(u[4], 3.0, 9.0);
    UndoScale(u[5], 2.0, 10.0);
    UndoScale(u[6], 0.5, 1.0);
    assert Params(seed).egoSpeed * 3.6 == Scale(u[0], 60.0, 120.0);
    assert Params(seed).frontSpeed * 3.6 == Scale(u[1], 40.0, 110.0);
  }

  /** Every parameter lies in its range. */
  ghost predicate InRanges(p: TrialParams) {
    && 60.0 <= p.egoSpeed * 3.6 <= 120.0 && 40.0 <= p.frontSpeed * 3.6 <= 110.0
    && 5.0 <= p.initialDistance <= 100.0 && 0.5 <= p.reactionTime <= 2.5
    && 3.0 <= p.egoDeceleration <= 9.0 && 2.0 <= p.frontDeceleration <= 10.0 && 0.5 <= p.roadFactor <= 1.0
  }

  lemma ParametersInRanges(seed: Word32)
    ensures InRanges(Params(seed))
  {
    UndoScale(Draw(seed, 1), 60.0, 120.0);
    UndoScale(Draw(seed, 2), 40.0, 110.0);
    UndoScale(Draw(seed, 3), 5.0, 100.0);
    UndoScale(Draw(seed, 4), 0.5, 2.5);
    UndoScale(Draw(seed, 5), 3.0, 9.0);
    UndoScale(Draw(seed, 6), 2.0, 10.0);
    UndoScale(Draw(seed, 7), 0.5, 1.0);
  }

  /** Undoing the exclusive-or with the base seed gives the index times 2654435761 with 32-bit wrap-around. */
  lemma SeedFromIndex(baseSeed: Word32, index: int)
    ensures Xor(SeedForTrial(baseSeed, index), baseSeed) as int == index % 0x1_0000_0000 * 2654435761 % 0x1_0000_0000
  {
    var spread := Spread(ToWord32(index));
    XorCommutes(baseSeed, spread);
    XorCancels(spread, baseSeed);
  }

  // ----- Motion -----

  /** n steps of braking lower a speed by n * loss, but not below zero. */
  function Slowed(speed: real, n: nat, loss: real): real {
    if speed - n as real * loss < 0.0 then 0.0 else speed - n as real * loss
  }

  // Speeds after n steps; the ego vehicle brakes from step r on.
  function FrontSpeedAfter(p: TrialParams, n: nat): real { Slowed(p.frontSpeed, n, p.frontDeceleration * 0.1) }

  function EgoSpeedAfter(p: TrialParams, r: nat, n: nat): real {
    if n <= r then p.egoSpeed else Slowed(p.egoSpeed, n - r, p.egoDeceleration * p.roadFactor * 0.1)
  }

  /** The way made in n steps: the sum of the speeds after each step, each for 0.1 s. */
  function FrontWay(p: TrialParams, n: nat): real {
    if n == 0 then 0.0 else FrontWay(p, n - 1) + FrontSpeedAfter(p, n) * 0.1
  }

  function EgoWay(p: TrialParams, r: nat, n: nat): real {
    if n == 0 then 0.0 else EgoWay(p, r, n - 1) + EgoSpeedAfter(p, r, n) * 0.1
  }

  /** Step r is the first one whose time reaches the reaction time. */
  ghost predicate BrakesFrom(p: TrialParams, r: nat) {
    p.reactionTime <= r as real * 0.1 && (r == 0 || (r - 1) as real * 0.1 < p.reactionTime)
  }

  lemma SlowedOnce(speed: real, n: nat, loss: real)
    requires 0.0 <= loss
    ensures Slowed(speed, n + 1, loss) == ClampNonnegative(Slowed(speed, n, loss) - loss)
  {
    OneMore(n, loss);
  }

  lemma NotSlowed(speed: real, loss: real)
    requires 0.0 <= speed
    ensures Slowed(speed, 0, loss) == speed
  {
  }

  function ClosedForm(p: TrialParams, r: nat, n: nat): Motion {
    Motion(EgoWay(p, r, n), p.initialDistance + FrontWay(p, n), EgoSpeedAfter(p, r, n), FrontSpeedAfter(p, n))
  }

  lemma {:induction false} MotionInClosedForm(p: TrialParams, r: nat, n: nat)
    requires 0.0 <= p.frontSpeed && 0.0 <= p.frontDeceleration
    requires 0.0 <= p.egoSpeed && 0.0 <= p.egoDeceleration * p.roadFactor
    requires BrakesFrom(p, r)
    ensures Path(p, n) == ClosedForm(p, r, n)
  {
    if n == 0 {
      NotSlowed(p.frontSpeed, p.frontDeceleration * 0.1);
    } else {
      MotionInClosedForm(p, r, n - 1);
      ClosedFormStep(p, r, n - 1);
    }
  }

  lemma ClosedFormStep(p: TrialParams, r: nat, n: nat)
    requires 0.0 <= p.frontDeceleration && 0.0 <= p.egoSpeed && 0.0 <= p.egoDeceleration * p.roadFactor
    requires BrakesFrom(p, r)
    ensures Advance(p, ClosedForm(p, r, n), n) == ClosedForm(p, r, n + 1)
  {
    FrontSpeedStep(p, n);
    EgoSpeedStep(p, r, n);
    var m := Advance(p, ClosedForm(p, r, n), n);
    assert m.frontSpeed == FrontSpeedAfter(p, n + 1) && m.egoSpeed == EgoSpeedAfter(p, r, n + 1);
    assert m.egoPos == EgoWay(p, r, n) + EgoSpeedAfter(p, r, n + 1) * 0.1;
    assert m.frontPos == p.initialDistance + FrontWay(p, n) + FrontSpeedAfter(p, n + 1) * 0.1;
  }

  lemma FrontSpeedStep(p: TrialParams, n: nat)
    requires 0.0 <= p.frontDeceleration
    ensures FrontSpeedAfter(p, n + 1) == ClampNonnegative(FrontSpeedAfter(p, n) - p.frontDeceleration * DT)
  {
    SlowedOnce(p.frontSpeed, n, p.frontDeceleration * 0.1);
  }

  lemma EgoSpeedStep(p: TrialParams, r: nat, n: nat)
    requires 0.0 <= p.egoSpeed && 0.0 <= p.egoDeceleration * p.roadFactor && BrakesFrom(p, r)
    ensures EgoSpeedAfter(p, r, n + 1) ==
      if n as real * DT >= p.reactionTime
      then ClampNonnegative(EgoSpeedAfter(p, r, n) - p.egoDeceleration * p.roadFactor * DT)
      else EgoSpeedAfter(p, r, n)
  {
    var loss := p.egoDeceleration * p.roadFactor * 0.1;
    if n >= r {
      NotSlowed(p.egoSpeed, loss);
      SlowedOnce(p.egoSpeed, n - r, loss);
    }
  }

  /** The first braking step. */
  lemma BrakingStepExists(p: TrialParams) returns (r: nat)
    requires p.reactionTime <= 2.5
    ensures BrakesFrom(p, r) && r <= 25
  {
    r := 25;
    while r > 0 && p.reactionTime <= (r - 1) as real * 0.1
      invariant r <= 25 && p.reactionTime <= r as real * 0.1
    {
      r := r - 1;
    }
  }

  /** The motion of every trial, from its seed. */
  lemma TrialMotion(seed: Word32) returns (r: nat)
    ensures r <= 25 && BrakesFrom(Params(seed), r)
    ensures forall n: nat :: Path(Params(seed), n) == ClosedForm(Params(seed), r, n)
  {
    var p := Params(seed);
    ParametersInRanges(seed);
    r := BrakingStepExists(p);
    assert 0.0 <= p.egoDeceleration * p.roadFactor;
    forall n: nat
      ensures Path(p, n) == ClosedForm(p, r, n)
    {
      MotionInClosedForm(p, r, n);
    }
  }

  // ----- Risk -----

  /** Within n steps the vehicles touch. */
  ghost predicate TouchesWithin(p: TrialParams, n: nat) {
    exists k :: 1 <= k <= n && Touches(p, k)
  }

  /** Within n steps the vehicles touch, or are closing in with a time to contact below the limit. */
  ghost predicate CloserThan(p: TrialParams, n: nat, limit: real) {
    exists k :: 1 <= k <= n && (Touches(p, k) || Ttc(Path(p, k)) < limit)
  }

  /** The risk of a trial: 4 exactly when the vehicles touch within the horizon; at least 3, 2 or 1 exactly
      when they touch or their time to collision falls below 1.5, 3 or 5 seconds in some step. */
  lemma RiskMeaning(seed: Word32, n: nat)
    ensures var p, risk := Params(seed), TrialOutcome(seed, n).risk;
      && (risk == 4 <==> TouchesWithin(p, n))
      && (risk >= 3 <==> CloserThan(p, n, 1.5))
      && (risk >= 2 <==> CloserThan(p, n, 3.0))
      && (risk >= 1 <==> CloserThan(p, n, 5.0))
      && (TrialOutcome(seed, n).collided <==> TouchesWithin(p, n))
  {
    var p, d := Params(seed), DriveFor(Params(seed), n);
    DriveMeaning(p, n);
    CloserMeaning(p, n, 1.5);
    CloserMeaning(p, n, 3.0);
    CloserMeaning(p, n, 5.0);
  }

  lemma CloserMeaning(p: TrialParams, n: nat, limit: real)
    requires limit <= LARGE_TTC
    ensures CloserThan(p, n, limit) <==> DriveFor(p, n).collided || DriveFor(p, n).minTtc < limit
  {
    var d := DriveFor(p, n);
    DriveMeaning(p, n);
    if d.collided {
      var k :| 1 <= k <= n && Touches(p, k);
    } else if d.minTtc < limit {
      var k :| 1 <= k <= n && d.minTtc == Ttc(Path(p, k));
    }
  }

  /** The ego vehicle is behind and faster, and at constant speeds it passes the contact within `limit` seconds. */
  predicate OnCourse(m: Motion, limit: real) {
    && m.egoSpeed - m.frontSpeed > 0.000000001 && m.egoPos < m.frontPos
    && m.frontPos + m.frontSpeed * limit < m.egoPos + m.egoSpeed * limit
  }

  lemma TtcBelow(m: Motion, limit: real)
    requires limit <= 1000000000.0
    ensures Ttc(m) < limit <==> OnCourse(m, limit)
  {
    TtcIsTimeToContact(m);
    assert Closing(m) ==> (GapAfter(m, limit) < 0.0 <==> Ttc(m) < limit);
  }

  /** Within n steps the vehicles touch or are on course to do so within `limit` seconds. */
  ghost predicate DangerWithin(p: TrialParams, n: nat, limit: real) {
    exists k :: 1 <= k <= n && (Path(p, k).frontPos <= Path(p, k).egoPos || OnCourse(Path(p, k), limit))
  }

  lemma DangerIsCloser(p: TrialParams, n: nat, limit: real)
    requires limit <= 1000000000.0
    ensures DangerWithin(p, n, limit) <==> CloserThan(p, n, limit)
  {
    forall k | 1 <= k <= n
      ensures Touches(p, k) || Ttc(Path(p, k)) < limit <==>
              Path(p, k).frontPos <= Path(p, k).egoPos || OnCourse(Path(p, k), limit)
    {
      TtcBelow(Path(p, k), limit);
    }
  }

  /** The risk of a trial in terms of positions and speeds alone. */
  lemma RiskFromMotion(seed: Word32, n: nat)
    ensures var p, risk := Params(seed), TrialOutcome(seed, n).risk;
      && (risk >= 3 <==> DangerWithin(p, n, 1.5))
      && (risk >= 2 <==> DangerWithin(p, n, 3.0))
      && (risk >= 1 <==> DangerWithin(p, n, 5.0))
  {
    RiskMeaning(seed, n);
    DangerIsCloser(Params(seed), n, 1.5);
    DangerIsCloser(Params(seed), n, 3.0);
    DangerIsCloser(Params(seed), n, 5.0);
  }
}
