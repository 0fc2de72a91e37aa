/** The mutable `Result` record and the loops that fill it.

    Source: src/result.c, run_batch (src/simulation.c), src/sequential.c, src/postprocess.c.
    A trial is an arbitrary total function from its index to an outcome; module Simulation gives the
    repository's own. */
module Results {
  import opened Words
  import opened Tallies
  import opened Checksums

  /** The contents of a `Result`, as structure assignment copies them. */
  datatype Record = Record(tally: Tally, checksum: Word64)

  class Result {
    var totalTrials: int
    var collisionCount: int
    const histogram: array<int>
    var checksum: Word64

    ghost predicate Valid() {
      histogram.Length == RISK_BUCKETS
    }

    ghost function Counters(): Tally
      requires Valid()
      reads this, histogram
    {
      Tally(totalTrials, collisionCount, histogram[..])
    }

    /** Two records are separate storage, or the same record. */
    ghost predicate Separate(other: Result) {
      this == other || histogram != other.histogram
    }

    constructor ()
      ensures Valid() && fresh(histogram) && Counters() == ZERO && checksum == 0
    {
      totalTrials, collisionCount, checksum := 0, 0, 0;
      histogram := new int[RISK_BUCKETS](_ => 0);
    }

    method Init()
      requires Valid()
      modifies this, histogram
      ensures Counters() == ZERO && checksum == 0
    {
      totalTrials, collisionCount, checksum := 0, 0, 0;
      for i := 0 to RISK_BUCKETS
        invariant forall k :: 0 <= k < i ==> histogram[k] == 0
        invariant totalTrials == 0 && collisionCount == 0 && checksum == 0
      {
        histogram[i] := 0;
      }
      assert histogram[..] == ZERO.hist;
    }

    /** Overwrites the record with the bytes of another one. */
    method Load(r: Record)
      requires Valid()
      modifies this, histogram
      ensures Counters() == r.tally && checksum == r.checksum
    {
      totalTrials, collisionCount, checksum := r.tally.total, r.tally.collisions, r.checksum;
      forall i | 0 <= i < RISK_BUCKETS {
        histogram[i] := r.tally.hist[i];
      }
      assert histogram[..] == r.tally.hist;
    }

    /** The record as a structure assignment copies it. */
    method Copy() returns (r: Record)
      requires Valid()
      ensures r == Record(Counters(), checksum)
    {
      r := Record(Tally(totalTrials, collisionCount, histogram[..]), checksum);
    }

    method ReadCell(c: Counter) returns (v: int)
      requires Valid()
      ensures v == Get(Counters(), c)
    {
      match c
      case Total => v := totalTrials;
      case Collisions => v := collisionCount;
      case Bucket(r) => v := histogram[r];
    }

    method WriteCell(c: Counter, v: int)
      requires Valid()
      modifies this, histogram
      ensures Counters() == Put(old(Counters()), c, v) && checksum == old(checksum)
    {
      match c
      case Total => totalTrials := v;
      case Collisions => collisionCount := v;
      case Bucket(r) => histogram[r] := v;
    }

    /** A risk outside the buckets is ignored. */
    method AddTrial(risk: int, collided: bool)
      requires Valid()
      modifies this, histogram
      ensures Counters() == if 0 <= risk < RISK_BUCKETS
                            then Tallies.AddTrial(old(Counters()), Outcome(risk, collided))
                            else old(Counters())
      ensures checksum == old(checksum)
    {
      if risk < 0 || risk >= RISK_BUCKETS {
        return;
      }
      totalTrials := totalTrials + 1;
      if collided {
        collisionCount := collisionCount + 1;
      }
      histogram[risk] := histogram[risk] + 1;
    }

    /** Adds the counters of `src`; merging a record into itself doubles it. */
    method Merge(src: Result)
      requires Valid() && src.Valid() && Separate(src)
      modifies this, histogram
      ensures Counters() == Add(old(Counters()), old(src.Counters()))
      ensures checksum == old(checksum)
    {
      ghost var a, b := Counters(), src.Counters();
      totalTrials := totalTrials + src.totalTrials;
      collisionCount := collisionCount + src.collisionCount;
      for i := 0 to RISK_BUCKETS
        invariant forall k :: 0 <= k < i ==> histogram[k] == a.hist[k] + b.hist[k]
        invariant forall k :: i <= k < RISK_BUCKETS ==> histogram[k] == a.hist[k] && src.histogram[k] == b.hist[k]
        invariant totalTrials == a.total + b.total && collisionCount == a.collisions + b.collisions
        invariant checksum == old(checksum)
      {
        histogram[i] := histogram[i] + src.histogram[i];
      }
      assert histogram[..] == Add(a, b).hist;
    }

    method HistSum() returns (sum: int)
      requires Valid()
      ensures sum == Tallies.HistSum(Counters())
    {
      sum := 0;
      ghost var h := histogram[..];
      for i := 0 to RISK_BUCKETS
        invariant sum == (if i > 0 then h[0] else 0) + (if i > 1 then h[1] else 0) + (if i > 2 then h[2] else 0)
                       + (if i > 3 then h[3] else 0) + (if i > 4 then h[4] else 0)
      {
        sum := sum + histogram[i];
      }
    }

    method ComputeChecksum() returns (hash: Word64)
      requires Valid()
      ensures hash == Checksum(Counters())
    {
      ghost var words := ChecksumWords(Counters());
      hash := OFFSET;
      ChainStep(hash, words);
      hash := Mix(hash, ToWord64(totalTrials));
      ChainStep(hash, words[1..]);
      hash := Mix(hash, ToWord64(collisionCount));
      for i := 0 to RISK_BUCKETS
        invariant Chain(OFFSET, words) == Chain(hash, words[2 + i..])
      {
        ChainStep(hash, words[2 + i..]);
        hash := Mix(hash, ToWord64(ToWord64(histogram[i]) + ToWord64(i + 1)));
      }
    }

    /** Stores the checksum of the counters as they are now. */
    method StampChecksum()
      requires Valid()
      modifies this
      ensures Counters() == old(Counters()) && checksum == Checksum(Counters())
    {
      ghost var before := Counters();
      var hash := ComputeChecksum();
      checksum := hash;
      assert Counters() == before;
    }

    method Validate(expectedTrials: int) returns (ok: bool)
      requires Valid()
      ensures ok == IsValid(Counters(), expectedTrials)
    {
      if expectedTrials <= 0 {
        return false;
      }
      var sum := HistSum();
      ok := totalTrials == expectedTrials && sum == expectedTrials
            && collisionCount >= 0 && collisionCount <= expectedTrials;
    }

    /** What every mode leaves in its output record on success. */
    ghost predicate IsSequentialResult(f: int -> Outcome, trials: int)
      requires Valid()
      reads this, histogram
    {
      && Counters() == RangeTally(f, 0, trials)
      && checksum == Checksum(RangeTally(f, 0, trials))
    }
  }

  /** Runs the trials of one batch into a fresh record and stamps its checksum. */
  method RunBatch(f: int -> Outcome, startIdx: int, endIdx: int, out: Result)
    requires out.Valid()
    modifies out, out.histogram
    ensures out.Counters() == RangeTally(f, startIdx, endIdx)
    ensures out.checksum == Checksum(out.Counters())
  {
    RunTrials(f, startIdx, endIdx, out);
    out.StampChecksum();
  }

  method RunTrials(f: int -> Outcome, startIdx: int, endIdx: int, out: Result)
    requires out.Valid()
    modifies out, out.histogram
    ensures out.Counters() == RangeTally(f, startIdx, endIdx)
  {
    out.Init();
    var i := startIdx;
    while i < endIdx
      invariant startIdx <= i && (i <= endIdx || i == startIdx)
      invariant out.Counters() == RangeTally(f, startIdx, i)
    {
      var o := f(i);
      out.AddTrial(o.risk, o.collided);
      i := i + 1;
    }
  }

  datatype PostSummary = PostSummary(histSum: int, valid: bool, collisionProbability: real, riskRatio: seq<real>)

  /** `count / expected` in exact arithmetic, and 0 when nothing was expected. */
  function Ratio(count: int, expected: int): (r: real)
    ensures expected > 0 ==> r * expected as real == count as real
  {
    if expected > 0 then count as real / expected as real else 0.0
  }

  /** Stamps the checksum on the counters as they are now and summarises them. */
  method Finalize(out: Result, expectedTrials: int) returns (summary: PostSummary)
    requires out.Valid()
    modifies out
    ensures out.Counters() == old(out.Counters()) && out.checksum == Checksum(old(out.Counters()))
    ensures summary.valid == IsValid(out.Counters(), expectedTrials)
    ensures summary.histSum == Tallies.HistSum(out.Counters())
    ensures |summary.riskRatio| == RISK_BUCKETS
    ensures summary.collisionProbability == Ratio(out.Counters().collisions, expectedTrials)
    ensures forall k :: 0 <= k < RISK_BUCKETS ==>
      summary.riskRatio[k] == Ratio(out.Counters().hist[k], expectedTrials)
  {
    out.StampChecksum();
    var sum := out.HistSum();
    var ok := out.Validate(expectedTrials);
    var probability := Ratio(out.collisionCount, expectedTrials);
    var ratios: seq<real> := [];
    for i := 0 to RISK_BUCKETS
      invariant |ratios| == i
      invariant forall k :: 0 <= k < i ==> ratios[k] == Ratio(out.histogram[k], expectedTrials)
    {
      ratios := ratios + [Ratio(out.histogram[i], expectedTrials)];
    }
    summary := PostSummary(sum, ok, probability, ratios);
  }

  /** When a result is valid, its risk ratios are a probability distribution. */
  lemma RiskRatiosSumToOne(t: Tally, expected: int)
    requires IsValid(t, expected)
    ensures Ratio(t.hist[0], expected) + Ratio(t.hist[1], expected) + Ratio(t.hist[2], expected)
          + Ratio(t.hist[3], expected) + Ratio(t.hist[4], expected) == 1.0
  {
    var n := expected as real;
    var a, b, c, d, e := Ratio(t.hist[0], expected), Ratio(t.hist[1], expected), Ratio(t.hist[2], expected),
                         Ratio(t.hist[3], expected), Ratio(t.hist[4], expected);
    assert (a + b + c + d + e) * n == a * n + b * n + c * n + d * n + e * n;
    assert (a + b + c + d + e - 1.0) * n == 0.0;
  }

  /** The reference loop: every other mode is compared with what this leaves in `out`. */
  method RunSequential(f: int -> Outcome, trials: int, timeSteps: int, out: Result) returns (rc: int)
    requires out.Valid()
    modifies out, out.histogram
    ensures rc == if trials <= 0 || timeSteps <= 0 then -1 else 0
    ensures rc == -1 ==> out.Counters() == old(out.Counters()) && out.checksum == old(out.checksum)
    ensures rc == 0 ==> out.IsSequentialResult(f, trials) && IsValid(out.Counters(), trials)
  {
    if trials <= 0 || timeSteps <= 0 {
      return -1;
    }
    out.Init();
    for i := 0 to trials
      invariant out.Counters() == RangeTally(f, 0, i)
    {
      var o := f(i);
      out.AddTrial(o.risk, o.collided);
    }
    var _ := Finalize(out, trials);
    SequentialIsValid(f, trials);
    return 0;
  }
}
