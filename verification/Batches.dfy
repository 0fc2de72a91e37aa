/** The batches the pipeline works through.

    Source: create_batches (src/preprocess.c), include/task_batch.h. */
module Batches {
  import opened Words
  import opened Tallies
  import opened Checksums
  import opened Partitions

  const INT_MAX: int := 0x7FFF_FFFF

  datatype TaskBatch = TaskBatch(batchId: int, startIdx: int, endIdx: int,
                                 baseSeed: Word32, timeSteps: int, difficultyLevel: int)

  // C division of `long` values truncates toward zero.
  function TruncDiv(a: int, b: int): int
    requires b > 0
  {
    if a >= 0 then a / b else -((-a) / b)
  }

  /** The quotient leaves a remainder that is smaller than b and has the sign of a. */
  lemma TruncDivLaw(a: int, b: int)
    requires b > 0
    ensures var r := a - TruncDiv(a, b) * b; -b < r < b && (a >= 0 ==> 0 <= r) && (a <= 0 ==> r <= 0)
  {
    if a >= 0 {
      assert a == (a / b) * b + a % b;
    } else {
      assert -a == ((-a) / b) * b + (-a) % b;
      assert TruncDiv(a, b) * b == -(((-a) / b) * b);
    }
  }

  function BatchCount(trials: int, batchSize: int): int
    requires batchSize > 0
  {
    TruncDiv(trials + batchSize - 1, batchSize)
  }

  /** Where batch i starts; batch i ends where batch i + 1 starts. */
  function BatchCut(trials: int, batchSize: int, i: int): int {
    Min(i * batchSize, trials)
  }

  /** Batch i as the source fills it in; only its range influences results. */
  function BatchOf(trials: int, batchSize: int, seed: Word32, timeSteps: int, i: int): TaskBatch {
    var baseSeed := Xor32(seed, ToWord32(ToWord32(i) * 1103515245));
    TaskBatch(i, BatchCut(trials, batchSize, i), BatchCut(trials, batchSize, i + 1), baseSeed, timeSteps, baseSeed % 3)
  }

  /** Fills one batch per `batchSize` trials, clamping the last one. Nothing is returned for a
      non-positive batch size or a negative count (which no allocation can satisfy). The two
      arithmetic preconditions are what C needs for the computation to be defined. */
  method CreateBatches(trials: int, batchSize: int, seed: Word32, timeSteps: int)
    returns (batches: array?<TaskBatch>, count: int)
    requires batchSize > 0 ==> trials + batchSize - 1 <= LONG_MAX && BatchCount(trials, batchSize) <= INT_MAX
    ensures batches == null <==> batchSize <= 0 || BatchCount(trials, batchSize) < 0
    ensures batches != null ==>
      && fresh(batches) && batches.Length == count == BatchCount(trials, batchSize)
      && forall i :: 0 <= i < count ==> batches[i] == BatchOf(trials, batchSize, seed, timeSteps, i)
  {
    if batchSize <= 0 {
      return null, 0;
    }
    count := TruncDiv(trials + batchSize - 1, batchSize);
    if count < 0 {
      return null, 0;
    }
    var filled := new TaskBatch[count](_ => TaskBatch(0, 0, 0, 0, 0, 0));
    for i := 0 to count
      invariant forall k :: 0 <= k < i ==> filled[k] == BatchOf(trials, batchSize, seed, timeSteps, k)
    {
      BatchShape(trials, batchSize, i);
      var start := i * batchSize;
      var end := start + batchSize;
      if end > trials {
        end := trials;
      }
      var baseSeed := Xor32(seed, ToWord32(ToWord32(i) * 1103515245));
      filled[i] := TaskBatch(i, start, end, baseSeed, timeSteps, baseSeed % 3);
    }
    batches := filled;
  }

  /** The count is the ceiling of trials / batchSize. */
  lemma BatchCountIsCeiling(trials: int, batchSize: int)
    requires 0 < trials && 0 < batchSize
    ensures var c := BatchCount(trials, batchSize);
      0 < c && (c - 1) * batchSize < trials <= c * batchSize
  {
    var m := trials + batchSize - 1;
    var c := m / batchSize;
    assert m == c * batchSize + m % batchSize;
    assert (c - 1) * batchSize == c * batchSize - batchSize;
    assert c <= 0 ==> c * batchSize <= 0;
  }

  /** Each batch is a non-empty range that starts where the previous one ends, none is longer than
      `batchSize`, all but the last are exactly that long, and no intermediate value exceeds
      trials + batchSize - 1, the one sum the source computes first. */
  lemma BatchShape(trials: int, batchSize: int, i: nat)
    requires 0 < batchSize && i < BatchCount(trials, batchSize)
    ensures 0 < trials
    ensures i * batchSize == BatchCut(trials, batchSize, i) < BatchCut(trials, batchSize, i + 1)
    ensures BatchCut(trials, batchSize, i + 1) == Min(i * batchSize + batchSize, trials)
    ensures i + 1 < BatchCount(trials, batchSize) ==> BatchCut(trials, batchSize, i + 1) == i * batchSize + batchSize
    ensures i + 1 == BatchCount(trials, batchSize) ==> BatchCut(trials, batchSize, i + 1) == trials
    ensures 0 <= i * batchSize && i * batchSize + batchSize <= trials + batchSize - 1
  {
    if trials <= 0 {
      DivSmall(trials + batchSize - 1, batchSize);
      assert false;
    }
    BatchCountIsCeiling(trials, batchSize);
    var c := BatchCount(trials, batchSize);
    assert (i + 1) * batchSize == i * batchSize + batchSize;
    MulMonotone(0, i, batchSize);
    MulMonotone(i, c - 1, batchSize);
    if i + 1 < c {
      MulMonotone(i + 1, c - 1, batchSize);
    }
  }

  lemma MulMonotone(a: int, b: int, m: nat)
    requires a <= b
    ensures a * m <= b * m
  {
  }

  lemma DivSmall(m: int, d: int)
    requires 0 < d && m < d
    ensures TruncDiv(m, d) <= 0
  {
    if m >= 0 {
      ModUnique(m, 0, m, d);
    } else {
      assert (-m) / d >= 0;
    }
  }

  lemma BatchCuts(trials: int, batchSize: int, k: nat) returns (cuts: seq<int>)
    requires 0 < trials && 0 < batchSize && k <= BatchCount(trials, batchSize)
    ensures |cuts| == k + 1 && cuts[0] == 0
    ensures forall b :: 0 <= b <= k ==> cuts[b] == BatchCut(trials, batchSize, b)
    ensures forall b :: 0 <= b < k ==> cuts[b] <= cuts[b + 1]
  {
    cuts := seq(k + 1, i => BatchCut(trials, batchSize, i));
    forall b | 0 <= b < k
      ensures cuts[b] <= cuts[b + 1]
    {
      BatchShape(trials, batchSize, b);
    }
  }

  /** Merging the tallies of the first k batches gives the tally of the trials up to where batch k starts. */
  lemma BatchesMergeToPrefix(f: int -> Outcome, trials: int, batchSize: int, g: int -> Tally, k: nat)
    requires 0 < trials && 0 < batchSize && k <= BatchCount(trials, batchSize)
    requires forall b :: 0 <= b < k ==>
      g(b) == RangeTally(f, BatchCut(trials, batchSize, b), BatchCut(trials, batchSize, b + 1))
    ensures MergeFirst(k, g) == RangeTally(f, 0, BatchCut(trials, batchSize, k))
  {
    var cuts := BatchCuts(trials, batchSize, k);
    forall b | 0 <= b < k
      ensures g(b) == RangeTally(f, cuts[b], cuts[b + 1])
    {
      assert cuts[b] == BatchCut(trials, batchSize, b) && cuts[b + 1] == BatchCut(trials, batchSize, b + 1);
    }
    MergeTiles(k, g, f, cuts);
  }

  /** Merging the tallies of all batches gives the tally of all trials. */
  lemma BatchesMergeToWhole(f: int -> Outcome, trials: int, batchSize: int, g: int -> Tally)
    requires 0 < trials && 0 < batchSize
    requires forall b :: 0 <= b < BatchCount(trials, batchSize) ==>
      g(b) == RangeTally(f, BatchCut(trials, batchSize, b), BatchCut(trials, batchSize, b + 1))
    ensures 0 < BatchCount(trials, batchSize)
    ensures MergeFirst(BatchCount(trials, batchSize), g) == RangeTally(f, 0, trials)
  {
    BatchCountIsCeiling(trials, batchSize);
    var n := BatchCount(trials, batchSize);
    BatchesMergeToPrefix(f, trials, batchSize, g, n);
    BatchShape(trials, batchSize, n - 1);
  }

  // ----- Seeds of the batches -----

  const BATCH_FACTOR := 1103515245
  const BATCH_FACTOR_INVERSE := 4005161829

  /** The number of a batch, spread over 32 bits. */
  function BatchSpread(i: int): Word32 { ToWord32(ToWord32(i) * BATCH_FACTOR) }

  /** Undoing the exclusive-or with the seed gives the number of the batch times 1103515245 with 32-bit
      wrap-around; the other fields of batch i are its number, the time steps and a difficulty below three. */
  lemma BatchFields(trials: int, batchSize: int, seed: Word32, timeSteps: int, i: int)
    ensures var b := BatchOf(trials, batchSize, seed, timeSteps, i);
      && b.batchId == i && b.timeSteps == timeSteps
      && Xor(b.baseSeed, seed) == ToWord32(i) * 1103515245 % 0x1_0000_0000
      && 0 <= b.difficultyLevel < 3 && (b.baseSeed - b.difficultyLevel) % 3 == 0
  {
    var b := BatchOf(trials, batchSize, seed, timeSteps, i);
    XorCommutes(seed, BatchSpread(i));
    XorCancels(BatchSpread(i), seed);
    ModUnique(b.baseSeed - b.difficultyLevel, b.baseSeed / 3, 0, 3);
  }

  /** Two batches have the same base seed exactly when their numbers agree modulo 2^32. */
  lemma BatchSeedsDiffer(trials: int, batchSize: int, seed: Word32, timeSteps: int, i: int, j: int)
    ensures BatchOf(trials, batchSize, seed, timeSteps, i).baseSeed == BatchOf(trials, batchSize, seed, timeSteps, j).baseSeed
      <==> ToWord32(i) == ToWord32(j)
  {
    if Xor32(seed, BatchSpread(i)) == Xor32(seed, BatchSpread(j)) {
      XorInjective(seed, BatchSpread(i), BatchSpread(j));
      SpreadOfBatchInjective(ToWord32(i), ToWord32(j));
    }
  }

  lemma BatchFactorInvertible()
    ensures BATCH_FACTOR * BATCH_FACTOR_INVERSE % TWO_32 == 1
  {
  }

  lemma SpreadOfBatchInjective(a: Word32, b: Word32)
    requires ToWord32(a * BATCH_FACTOR) == ToWord32(b * BATCH_FACTOR)
    ensures a == b
  {
    BatchFactorInvertible();
    MulInjective(a, b, BATCH_FACTOR, BATCH_FACTOR_INVERSE, TWO_32);
  }
}
