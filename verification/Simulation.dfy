/** One Monte Carlo trial: its seed, its random parameters and the two-vehicle loop.

    Source: src/simulation.c. The vehicle loop computes in C `double`; here it computes in exact real
    arithmetic, so what is proved is about the algorithm without rounding. Seeds and generator states are
    32-bit words as in C. */
module Simulation {
  import opened Words
  import opened Tallies

  const UINT_MAX: int := 0xFFFF_FFFF

  const SEED_FACTOR := 2654435761
  const SEED_FACTOR_INVERSE := 244002641
  const LCG_FACTOR := 1664525
  const LCG_INCREMENT := 1013904223
  const LCG_FACTOR_INVERSE := 4276115653

  // ----- Seeds and the generator -----

  function Spread(index: Word32): Word32 { index * SEED_FACTOR % TWO_32 }

  function SeedForTrial(baseSeed: Word32, trialIndex: int): Word32 {
    Xor32(baseSeed, Spread(ToWord32(trialIndex)))
  }

  function Lcg(state: Word32): Word32 { (state * LCG_FACTOR + LCG_INCREMENT) % TWO_32 }

  /** The k-th draw from a seed, counting from 1. */
  function Draw(seed: Word32, k: nat): Word32 {
    if k == 0 then seed else Lcg(Draw(seed, k - 1))
  }

  lemma FactorsInvertible()
    ensures SEED_FACTOR * SEED_FACTOR_INVERSE % TWO_32 == 1
    ensures LCG_FACTOR * LCG_FACTOR_INVERSE % TWO_32 == 1
  {
  }

  lemma LcgInjective(a: Word32, b: Word32)
    requires Lcg(a) == Lcg(b)
    ensures a == b
  {
    FactorsInvertible();
    AddInjective(a * LCG_FACTOR, b * LCG_FACTOR, LCG_INCREMENT, TWO_32);
    MulInjective(a, b, LCG_FACTOR, LCG_FACTOR_INVERSE, TWO_32);
  }

  lemma {:induction false} DrawInjective(a: Word32, b: Word32, k: nat)
    requires Draw(a, k) == Draw(b, k)
    ensures a == b
  {
    if k > 0 {
      LcgInjective(Draw(a, k - 1), Draw(b, k - 1));
      DrawInjective(a, b, k - 1);
    }
  }

  lemma SpreadInjective(a: Word32, b: Word32)
    requires Spread(a) == Spread(b)
    ensures a == b
  {
    FactorsInvertible();
    MulInjective(a, b, SEED_FACTOR, SEED_FACTOR_INVERSE, TWO_32);
  }

  /** Under one base seed, two trials share their seed exactly when their indices agree modulo 2^32. */
  lemma SeedsCollideIff(baseSeed: Word32, i: int, j: int)
    ensures SeedForTrial(baseSeed, i) == SeedForTrial(baseSeed, j) <==> ToWord32(i) == ToWord32(j)
  {
    if SeedForTrial(baseSeed, i) == SeedForTrial(baseSeed, j) {
      XorInjective(baseSeed, Spread(ToWord32(i)), Spread(ToWord32(j)));
      SpreadInjective(ToWord32(i), ToWord32(j));
    }
  }

  /** Two such trials differ in every single draw, not just in the first. */
  lemma DrawsDiffer(baseSeed: Word32, i: int, j: int, k: nat)
    requires ToWord32(i) != ToWord32(j)
    ensures Draw(SeedForTrial(baseSeed, i), k) != Draw(SeedForTrial(baseSeed, j), k)
  {
    SeedsCollideIff(baseSeed, i, j);
    if Draw(SeedForTrial(baseSeed, i), k) == Draw(SeedForTrial(baseSeed, j), k) {
      DrawInjective(SeedForTrial(baseSeed, i), SeedForTrial(baseSeed, j), k);
    }
  }

  // ----- Trial parameters -----

  datatype TrialParams = TrialParams(
    egoSpeed: real, frontSpeed: real, initialDistance: real, reactionTime: real,
    egoDeceleration: real, frontDeceleration: real, roadFactor: real)

  const KMH_TO_MPS: real := 1000.0 / 3600.0

  function Scale(v: Word32, min: real, max: real): real {
    min + (max - min) * (v as real / UINT_MAX as real)
  }

  lemma ScaleInRange(v: Word32, min: real, max: real)
    requires min <= max
    ensures min <= Scale(v, min, max) <= max
  {
    var unit := v as real / UINT_MAX as real;
    assert 0.0 <= unit <= 1.0;
    assert 0.0 <= (max - min) * unit;
    assert 0.0 <= (max - min) * (1.0 - unit) == (max - min) - (max - min) * unit;
  }

  /** The seven parameters come from the first seven draws, in this order. */
  function Params(seed: Word32): TrialParams {
    TrialParams(Scale(Draw(seed, 1), 60.0, 120.0) * KMH_TO_MPS,
                Scale(Draw(seed, 2), 40.0, 110.0) * KMH_TO_MPS,
                Scale(Draw(seed, 3), 5.0, 100.0),
                Scale(Draw(seed, 4), 0.5, 2.5),
                Scale(Draw(seed, 5), 3.0, 9.0),
                Scale(Draw(seed, 6), 2.0, 10.0),
                Scale(Draw(seed, 7), 0.5, 1.0))
  }

  method RandDouble(state: Word32, min: real, max: real) returns (next: Word32, value: real)
    ensures next == Lcg(state) && value == Scale(Lcg(state), min, max)
  {
    next := (state * LCG_FACTOR + LCG_INCREMENT) % TWO_32;
    value := min + (max - min) * (next as real / UINT_MAX as real);
  }

  /** Advances the seed by seven draws. */
  method GenerateParams(seed: Word32) returns (next: Word32, params: TrialParams)
    ensures next == Draw(seed, 7) && params == Params(seed)
  {
    var a, b, c, d, e, f, g;
    next, a := RandDouble(seed, 60.0, 120.0);
    assert next == Draw(seed, 1);
    next, b := RandDouble(next, 40.0, 110.0);
    assert next == Draw(seed, 2);
    next, c := RandDouble(next, 5.0, 100.0);
    assert next == Draw(seed, 3);
    next, d := RandDouble(next, 0.5, 2.5);
    assert next == Draw(seed, 4);
    next, e := RandDouble(next, 3.0, 9.0);
    assert next == Draw(seed, 5);
    next, f := RandDouble(next, 2.0, 10.0);
    assert next == Draw(seed, 6);
    next, g := RandDouble(next, 0.5, 1.0);
    params := TrialParams(a * KMH_TO_MPS, b * KMH_TO_MPS, c, d, e, f, g);
  }

  // ----- The vehicle loop -----

  const DT: real := 0.1
  const LARGE_TTC: real := 1000000000.0
  const EPSILON: real := 0.000000001

  datatype Motion = Motion(egoPos: real, frontPos: real, egoSpeed: real, frontSpeed: real)

  function ClampNonnegative(v: real): real { if v < 0.0 then 0.0 else v }

  function Advance(p: TrialParams, m: Motion, step: int): Motion {
    var front := ClampNonnegative(m.frontSpeed - p.frontDeceleration * DT);
    var ego := if step as real * DT >= p.reactionTime
               then ClampNonnegative(m.egoSpeed - p.egoDeceleration * p.roadFactor * DT) else m.egoSpeed;
    Motion(m.egoPos + ego * DT, m.frontPos + front * DT, ego, front)
  }

  function Ttc(m: Motion): real {
    if m.egoSpeed - m.frontSpeed > EPSILON && m.frontPos - m.egoPos > 0.0
    then (m.frontPos - m.egoPos) / (m.egoSpeed - m.frontSpeed) else LARGE_TTC
  }

  predicate Closing(m: Motion) { m.egoSpeed - m.frontSpeed > EPSILON && m.frontPos - m.egoPos > 0.0 }

  /** The gap after a further time t at constant speeds. */
  function GapAfter(m: Motion, t: real): real {
    (m.frontPos + m.frontSpeed * t) - (m.egoPos + m.egoSpeed * t)
  }

  /** At constant speeds the gap of closing vehicles is zero at the time to collision and at no other time,
      and positive before it. A gap that is not closing shrinks by at most epsilon times the time passed. */
  lemma TtcIsTimeToContact(m: Motion)
    ensures Closing(m) ==> 0.0 < Ttc(m)
    ensures Closing(m) ==> forall t :: (GapAfter(m, t) == 0.0 <==> t == Ttc(m)) && (GapAfter(m, t) > 0.0 <==> t < Ttc(m))
    ensures !Closing(m) && m.frontPos - m.egoPos > 0.0 ==>
      Ttc(m) == LARGE_TTC && forall t :: 0.0 <= t ==> GapAfter(m, t) >= m.frontPos - m.egoPos - EPSILON * t
  {
    if Closing(m) {
      forall t
        ensures (GapAfter(m, t) == 0.0 <==> t == Ttc(m)) && (GapAfter(m, t) > 0.0 <==> t < Ttc(m))
      {
        GapIsLinear(m, t);
        RootOfLine(m.frontPos - m.egoPos, m.egoSpeed - m.frontSpeed, t);
      }
      assert GapAfter(m, 0.0) > 0.0;
    } else if m.frontPos - m.egoPos > 0.0 {
      forall t | 0.0 <= t
        ensures GapAfter(m, t) >= m.frontPos - m.egoPos - EPSILON * t
      {
        SlowGap(m, t);
      }
    }
  }

  lemma SlowGap(m: Motion, t: real)
    requires m.egoSpeed - m.frontSpeed <= EPSILON && 0.0 <= t
    ensures GapAfter(m, t) >= m.frontPos - m.egoPos - EPSILON * t
  {
    GapIsLinear(m, t);
    Slower(m.egoSpeed - m.frontSpeed, EPSILON, t);
  }

  lemma GapIsLinear(m: Motion, t: real)
    ensures GapAfter(m, t) == (m.frontPos - m.egoPos) - (m.egoSpeed - m.frontSpeed) * t
  {
    assert (m.egoSpeed - m.frontSpeed) * t == m.egoSpeed * t - m.frontSpeed * t;
  }

  lemma RootOfLine(gap: real, speed: real, t: real)
    requires 0.0 < speed
    ensures gap - speed * t == 0.0 <==> t == gap / speed
    ensures gap - speed * t > 0.0 <==> t < gap / speed
  {
    var root := gap / speed;
    assert speed * root == gap;
    assert gap - speed * t == speed * (root - t);
    Sign(speed, root - t);
  }

  lemma Sign(a: real, x: real)
    requires 0.0 < a
    ensures (a * x > 0.0 <==> x > 0.0) && (a * x == 0.0 <==> x == 0.0)
  {
  }

  lemma Slower(a: real, b: real, t: real)
    requires a <= b && 0.0 <= t
    ensures a * t <= b * t
  {
  }

  function Classify(collided: bool, minTtc: real): Risk {
    if collided then RISK_COLLISION
    else if minTtc < 1.5 then RISK_HIGH
    else if minTtc < 3.0 then RISK_MEDIUM
    else if minTtc < 5.0 then RISK_LOW
    else RISK_SAFE
  }

  /** The loop variables after some number of iterations. */
  datatype Drive = Drive(motion: Motion, minTtc: real, collided: bool)

  function StartOf(p: TrialParams): Drive {
    Drive(Motion(0.0, p.initialDistance, p.egoSpeed, p.frontSpeed), LARGE_TTC, false)
  }

  /** One iteration; after a collision the loop has been left and nothing changes. */
  function Iterate(p: TrialParams, d: Drive, step: int): Drive {
    if d.collided then d
    else
      var m := Advance(p, d.motion, step);
      Drive(m, if Ttc(m) < d.minTtc then Ttc(m) else d.minTtc, m.frontPos - m.egoPos <= 0.0)
  }

  function DriveFor(p: TrialParams, n: nat): Drive {
    if n == 0 then StartOf(p) else Iterate(p, DriveFor(p, n - 1), n - 1)
  }

  /** What run_trial reports for a seed and a horizon. */
  function TrialOutcome(seed: Word32, timeSteps: int): Outcome {
    var d := DriveFor(Params(seed), if timeSteps < 0 then 0 else timeSteps);
    Outcome(Classify(d.collided, d.minTtc), d.collided)
  }

  /** The state a trial updates in place. */
  class VehicleState {
    var egoPos: real
    var frontPos: real
    var egoSpeed: real
    var frontSpeed: real

    ghost function Value(): Motion
      reads this
    {
      Motion(egoPos, frontPos, egoSpeed, frontSpeed)
    }

    constructor (params: TrialParams)
      ensures Value() == StartOf(params).motion
    {
      egoPos, frontPos, egoSpeed, frontSpeed := 0.0, params.initialDistance, params.egoSpeed, params.frontSpeed;
    }

    method AdvanceOneStep(params: TrialParams, step: int)
      modifies this
      ensures Value() == Advance(params, old(Value()), step)
    {
      frontSpeed := ClampNonnegative(frontSpeed - params.frontDeceleration * DT);
      frontPos := frontPos + frontSpeed * DT;
      if step as real * DT >= params.reactionTime {
        egoSpeed := ClampNonnegative(egoSpeed - params.egoDeceleration * params.roadFactor * DT);
      }
      egoPos := egoPos + egoSpeed * DT;
    }

    method ComputeTtc() returns (ttc: real)
      ensures ttc == Ttc(Value())
    {
      var relativeDistance := frontPos - egoPos;
      var relativeSpeed := egoSpeed - frontSpeed;
      if relativeSpeed > EPSILON && relativeDistance > 0.0 {
        return relativeDistance / relativeSpeed;
      }
      return LARGE_TTC;
    }
  }

  // ----- What the loop computes, without its early exit -----

  /** The motion after n steps when nothing stops the loop. */
  function Path(p: TrialParams, n: nat): Motion {
    if n == 0 then StartOf(p).motion else Advance(p, Path(p, n - 1), n - 1)
  }

  /** After step k the ego vehicle has reached the front vehicle. */
  predicate Touches(p: TrialParams, k: nat) { Path(p, k).frontPos - Path(p, k).egoPos <= 0.0 }

  /** The loop reports a collision exactly when the undisturbed motion touches within the horizon, and
      otherwise the least time to collision over all steps of that motion. */
  lemma {:induction false} DriveMeaning(p: TrialParams, n: nat)
    ensures var d := DriveFor(p, n);
      && (d.collided <==> exists k :: 1 <= k <= n && Touches(p, k))
      && (!d.collided ==>
            && d.motion == Path(p, n)
            && d.minTtc <= LARGE_TTC
            && (forall k :: 1 <= k <= n ==> d.minTtc <= Ttc(Path(p, k)))
            && (d.minTtc == LARGE_TTC || exists k :: 1 <= k <= n && d.minTtc == Ttc(Path(p, k))))
  {
    if n > 0 {
      DriveMeaning(p, n - 1);
      var d := DriveFor(p, n - 1);
      if !d.collided {
        assert Path(p, n) == Advance(p, d.motion, n - 1);
        assert DriveFor(p, n).collided <==> Touches(p, n);
        if Ttc(Path(p, n)) < d.minTtc {
          assert DriveFor(p, n).minTtc == Ttc(Path(p, n));
        }
      }
    }
  }

  /** After a collision further iterations change nothing. */
  lemma {:induction false} CollisionPersists(p: TrialParams, n: nat, m: nat)
    requires n <= m && DriveFor(p, n).collided
    ensures DriveFor(p, m) == DriveFor(p, n)
    decreases m
  {
    if n < m {
      CollisionPersists(p, n, m - 1);
    }
  }

  /** The loop of run_trial, with its early exit, computes `TrialOutcome`. */
  method RunTrial(seed: Word32, timeSteps: int) returns (next: Word32, outcome: Outcome)
    ensures next == Draw(seed, 7) && outcome == TrialOutcome(seed, timeSteps)
  {
    var params;
    next, params := GenerateParams(seed);
    var state := new VehicleState(params);
    var minTtc, collided := LARGE_TTC, false;
    var step := 0;
    while step < timeSteps && !collided
      invariant 0 <= step && (step <= timeSteps || step == 0)
      invariant DriveFor(params, step) == Drive(state.Value(), minTtc, collided)
      decreases timeSteps - step
    {
      state.AdvanceOneStep(params, step);
      var ttc := state.ComputeTtc();
      if ttc < minTtc {
        minTtc := ttc;
      }
      if state.frontPos - state.egoPos <= 0.0 {
        collided := true;
      }
      step := step + 1;
    }
    if collided {
      CollisionPersists(params, step, if timeSteps < 0 then 0 else timeSteps);
    }
    outcome := Outcome(Classify(collided, minTtc), collided);
  }

  /** The trial function of a run: what run_trial_for_index returns for each index. */
  function Trials(baseSeed: Word32, timeSteps: int): int -> Outcome {
    (i: int) => TrialOutcome(SeedForTrial(baseSeed, i), timeSteps)
  }

  lemma TrialsAreCoherent(baseSeed: Word32, timeSteps: int)
    ensures Coherent(Trials(baseSeed, timeSteps))
  {
  }

  // ----- Risk grows with the horizon -----

  lemma {:induction false} DriveMonotone(p: TrialParams, n: nat, m: nat)
    requires n <= m
    ensures DriveFor(p, m).minTtc <= DriveFor(p, n).minTtc <= LARGE_TTC
    ensures DriveFor(p, n).collided ==> DriveFor(p, m).collided
    decreases n + m
  {
    if n < m {
      DriveMonotone(p, n, m - 1);
    } else if n > 0 {
      DriveMonotone(p, n - 1, n - 1);
    }
  }

  /** A longer horizon never reports a lower risk, and a collision once reported stays reported. */
  lemma RiskMonotoneInHorizon(seed: Word32, n: int, m: int)
    requires n <= m
    ensures TrialOutcome(seed, n).risk <= TrialOutcome(seed, m).risk
    ensures TrialOutcome(seed, n).collided ==> TrialOutcome(seed, m).collided
  {
    DriveMonotone(Params(seed), if n < 0 then 0 else n, if m < 0 then 0 else m);
  }

  // ----- ... and stops growing after 247 steps -----

  const SATURATION := 247

  ghost predicate ParamsInRange(p: TrialParams) {
    && 0.0 <= p.egoSpeed <= 120.0 * KMH_TO_MPS && p.reactionTime <= 2.5
    && 3.0 <= p.egoDeceleration && 0.5 <= p.roadFactor
  }

  lemma ParamsAreInRange(seed: Word32)
    ensures ParamsInRange(Params(seed))
  {
    ScaleInRange(Draw(seed, 1), 60.0, 120.0);
    ScaleInRange(Draw(seed, 4), 0.5, 2.5);
    ScaleInRange(Draw(seed, 5), 3.0, 9.0);
    ScaleInRange(Draw(seed, 7), 0.5, 1.0);
  }

  /** Braking costs at least 0.15 m/s a step once the reaction time is over, at step 25 at the latest. */
  lemma BrakingStep(p: TrialParams, m: Motion, step: nat)
    requires ParamsInRange(p) && 0.0 <= m.egoSpeed
    ensures 0.0 <= Advance(p, m, step).egoSpeed <= m.egoSpeed
    ensures 25 <= step ==> Advance(p, m, step).egoSpeed <= ClampNonnegative(m.egoSpeed - 0.15)
  {
    var a, b := p.egoDeceleration, p.roadFactor;
    assert (a - 3.0) * b >= 0.0;
    assert a * b >= 3.0 * b >= 1.5;
    if 25 <= step {
      assert step as real * DT >= 2.5;
    }
  }

  /** How fast the ego vehicle can still be after n steps. */
  lemma {:induction false} EgoSpeedBound(p: TrialParams, n: nat)
    requires ParamsInRange(p)
    ensures var d := DriveFor(p, n);
      && 0.0 <= d.motion.egoSpeed <= 120.0 * KMH_TO_MPS
      && (25 <= n && !d.collided ==>
            d.motion.egoSpeed <= ClampNonnegative(120.0 * KMH_TO_MPS - 0.15 * (n - 25) as real))
  {
    if n > 0 {
      EgoSpeedBound(p, n - 1);
      BrakingStep(p, DriveFor(p, n - 1).motion, n - 1);
    }
  }

  /** An iteration in which the ego vehicle stands still changes neither output. */
  lemma StandingStill(p: TrialParams, n: nat)
    requires ParamsInRange(p) && SATURATION <= n
    ensures DriveFor(p, n + 1).collided == DriveFor(p, n).collided
    ensures DriveFor(p, n + 1).minTtc == DriveFor(p, n).minTtc
  {
    var d := DriveFor(p, n);
    if !d.collided {
      var m := Advance(p, d.motion, n);
      EgoSpeedBound(p, n);
      BrakingStep(p, d.motion, n);
      assert d.motion.egoSpeed <= 0.15;
      assert m.egoSpeed == 0.0;
      assert 0.0 <= m.frontSpeed;
      assert Ttc(m) == LARGE_TTC;
      DriveMonotone(p, n, n);
      DistancePositive(p, n);
    }
  }

  lemma DistancePositive(p: TrialParams, n: nat)
    requires 0 < n && !DriveFor(p, n).collided
    ensures DriveFor(p, n).motion.frontPos - DriveFor(p, n).motion.egoPos > 0.0
  {
  }

  /** Every horizon of at least 247 steps reports what 247 steps report. */
  lemma {:induction false} OutcomeSaturates(seed: Word32, n: int)
    requires SATURATION <= n
    ensures TrialOutcome(seed, n) == TrialOutcome(seed, SATURATION)
    decreases n
  {
    if n > SATURATION {
      OutcomeSaturates(seed, n - 1);
      ParamsAreInRange(seed);
      StandingStill(Params(seed), n - 1);
    }
  }

  /** So whole runs agree: more than 247 time steps never change any counter. */
  lemma {:induction false} RunsSaturate(baseSeed: Word32, timeSteps: int, lo: int, hi: int)
    requires SATURATION <= timeSteps
    ensures RangeTally(Trials(baseSeed, timeSteps), lo, hi) == RangeTally(Trials(baseSeed, SATURATION), lo, hi)
    decreases hi - lo
  {
    if lo < hi {
      RunsSaturate(baseSeed, timeSteps, lo, hi - 1);
      OutcomeSaturates(SeedForTrial(baseSeed, hi - 1), timeSteps);
    }
  }

  // ----- Two colliding trials of one seed -----

  function Times(n: nat, d: real): real { if n == 0 then 0.0 else Times(n - 1, d) + d }

  /** Until the reaction time is over the ego vehicle keeps its speed and the front vehicle does not gain, so
      the gap shrinks by at least d every step. */
  lemma {:induction false} Coasting(p: TrialParams, n: nat, d: real)
    requires 0.0 <= p.frontSpeed && 0.0 <= p.frontDeceleration && d == (p.egoSpeed - p.frontSpeed) * DT
    requires (n - 1) as real * DT < p.reactionTime
    ensures Path(p, n).egoSpeed == p.egoSpeed && 0.0 <= Path(p, n).frontSpeed <= p.frontSpeed
    ensures Path(p, n).frontPos - Path(p, n).egoPos <= p.initialDistance - Times(n, d)
  {
    if n > 0 {
      Coasting(p, n - 1, d);
      CoastingStep(p, Path(p, n - 1), n - 1, d);
    }
  }

  lemma CoastingStep(p: TrialParams, m: Motion, step: nat, d: real)
    requires 0.0 <= m.frontSpeed <= p.frontSpeed && 0.0 <= p.frontDeceleration && m.egoSpeed == p.egoSpeed
    requires d == (p.egoSpeed - p.frontSpeed) * DT && step as real * DT < p.reactionTime
    ensures var t := Advance(p, m, step);
      && t.egoSpeed == p.egoSpeed && 0.0 <= t.frontSpeed <= p.frontSpeed
      && t.frontPos - t.egoPos <= m.frontPos - m.egoPos - d
  {
  }

  lemma {:induction false} TimesIsProduct(n: nat, d: real)
    ensures Times(n, d) == n as real * d
  {
    if n > 0 {
      TimesIsProduct(n - 1, d);
      OneMore(n - 1, d);
    }
  }

  lemma OneMore(n: nat, d: real)
    ensures (n + 1) as real * d == n as real * d + d
  {
  }

  lemma TouchesAtEight(p: TrialParams)
    requires 0.0 <= p.frontSpeed && 0.0 <= p.frontDeceleration
    requires 0.7 < p.reactionTime && p.initialDistance + 0.8 * p.frontSpeed <= 0.8 * p.egoSpeed
    ensures Touches(p, 8)
  {
    var d := (p.egoSpeed - p.frontSpeed) * DT;
    Coasting(p, 8, d);
    TimesIsProduct(8, d);
  }

  /** If the ego vehicle gains the initial distance in 0.8 s, before it can brake, the trial collides. */
  lemma EarlyCollision(seed: Word32, timeSteps: int)
    requires 8 <= timeSteps
    requires var p := Params(seed);
      0.7 < p.reactionTime && p.initialDistance + 0.8 * p.frontSpeed <= 0.8 * p.egoSpeed
    ensures TrialOutcome(seed, timeSteps).collided
  {
    var p := Params(seed);
    ScaleInRange(Draw(seed, 2), 40.0, 110.0);
    ScaleInRange(Draw(seed, 6), 2.0, 10.0);
    TouchesAtEight(p);
    DriveMeaning(p, timeSteps);
  }

  lemma {:induction false} XorZero(a: nat)
    ensures Xor(a, 0) == a
  {
    if a != 0 {
      XorZero(a / 2);
    }
  }

  lemma XorOf3761()
    ensures Xor(3761, SEED_FACTOR) == 2654435072
  {
    XorCommutes(0, 648055);
    XorZero(648055);
    assert Xor(0, 648055) == 648055;
    assert Xor(3, 2592222) == 2592221;
    assert Xor(14, 10368889) == 10368887;
    assert Xor(58, 41475558) == 41475548;
    assert Xor(235, 165902235) == 165902192;
    assert Xor(940, 663608940) == 663608768;
  }

  lemma FirstTrialCollides(seed: Word32, timeSteps: int)
    requires seed == 3761 && 8 <= timeSteps
    ensures TrialOutcome(seed, timeSteps).collided
  {
    assert Draw(3761, 1) == 2979215452;
    assert Draw(3761, 2) == 1784248331;
    assert Draw(3761, 3) == 31550958;
    assert Draw(3761, 4) == 3807140981;
    EarlyCollision(seed, timeSteps);
  }

  lemma SecondTrialCollides(seed: Word32, timeSteps: int)
    requires seed == 2654435072 && 8 <= timeSteps
    ensures TrialOutcome(seed, timeSteps).collided
  {
    assert Draw(2654435072, 1) == 4255776351;
    assert Draw(2654435072, 2) == 2964437042;
    assert Draw(2654435072, 3) == 29047273;
    assert Draw(2654435072, 4) == 2479143476;
    EarlyCollision(seed, timeSteps);
  }

  /** The first two trials use the base seed and its exclusive-or with the factor. */
  lemma FirstTwoSeeds(baseSeed: Word32)
    ensures SeedForTrial(baseSeed, 0) == baseSeed
    ensures SeedForTrial(baseSeed, 1) == Xor(baseSeed, SEED_FACTOR)
  {
    XorZero(baseSeed);
    assert Spread(ToWord32(0)) == 0 && Spread(ToWord32(1)) == SEED_FACTOR;
  }

  /** With base seed 3761 the first two trials collide, at the latest in the eighth step. */
  lemma BothTrialsCollide(baseSeed: Word32, timeSteps: int)
    requires baseSeed == 3761 && 8 <= timeSteps
    ensures Trials(baseSeed, timeSteps)(0).collided && Trials(baseSeed, timeSteps)(1).collided
  {
    var second: Word32 := 2654435072;
    FirstTrialCollides(baseSeed, timeSteps);
    SecondTrialCollides(second, timeSteps);
    XorOf3761();
    FirstTwoSeeds(baseSeed);
  }
}
