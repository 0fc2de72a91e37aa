/** The counters of a `Result` as a value, and the fold over trials that every execution mode must equal.

    Source: include/result.h and the arithmetic of src/result.c. A `Tally` holds the integer counters;
    the checksum is a function of them (module Checksums). Counters are mathematical integers: every
    tally the modes build lies between 0 and the number of trials (`CountersWithinTrials`), so a C
    `long` that holds the trial count holds every counter. */
module Tallies {
  const RISK_BUCKETS := 5
  const RISK_SAFE: Risk := 0
  const RISK_LOW: Risk := 1
  const RISK_MEDIUM: Risk := 2
  const RISK_HIGH: Risk := 3
  const RISK_COLLISION: Risk := 4

  type Risk = r: int | 0 <= r < 5
  type Histogram = h: seq<int> | |h| == 5 witness [0, 0, 0, 0, 0]

  /** What one trial reports: its risk bucket and its collision flag. */
  datatype Outcome = Outcome(risk: Risk, collided: bool)

  datatype Tally = Tally(total: int, collisions: int, hist: Histogram)

  const ZERO := Tally(0, 0, [0, 0, 0, 0, 0])

  /** One memory cell of a tally: the unit that a load or a store touches. */
  datatype Counter = Total | Collisions | Bucket(risk: Risk)

  function Get(t: Tally, c: Counter): int {
    match c
    case Total => t.total
    case Collisions => t.collisions
    case Bucket(r) => t.hist[r]
  }

  function Put(t: Tally, c: Counter, v: int): Tally {
    match c
    case Total => t.(total := v)
    case Collisions => t.(collisions := v)
    case Bucket(r) => t.(hist := t.hist[r := v])
  }

  /** The cells `result_add_trial` increments, in its order. */
  function Touched(o: Outcome): seq<Counter> {
    if o.collided then [Total, Collisions, Bucket(o.risk)] else [Total, Bucket(o.risk)]
  }

  function AddTrial(t: Tally, o: Outcome): Tally {
    Tally(t.total + 1,
          t.collisions + (if o.collided then 1 else 0),
          t.hist[o.risk := t.hist[o.risk] + 1])
  }

  function Add(a: Tally, b: Tally): Tally {
    Tally(a.total + b.total, a.collisions + b.collisions,
          seq(RISK_BUCKETS, i requires 0 <= i < RISK_BUCKETS => a.hist[i] + b.hist[i]))
  }

  function HistSum(t: Tally): int {
    t.hist[0] + t.hist[1] + t.hist[2] + t.hist[3] + t.hist[4]
  }

  predicate IsValid(t: Tally, expected: int) {
    expected > 0 && t.total == expected && HistSum(t) == expected && 0 <= t.collisions <= expected
  }

  /** The tally of the trials with index in [lo, hi), in index order. */
  function RangeTally(f: int -> Outcome, lo: int, hi: int): Tally
    decreases hi - lo
  {
    if hi <= lo then ZERO else AddTrial(RangeTally(f, lo, hi - 1), f(hi - 1))
  }

  /** How often trial outcome `o` increments counter `c`. */
  function Hits(o: Outcome, c: Counter): int {
    match c
    case Total => 1
    case Collisions => if o.collided then 1 else 0
    case Bucket(r) => if o.risk == r then 1 else 0
  }

  /** How often counter `c` occurs in a sequence of cells. */
  function Occurrences(cs: seq<Counter>, c: Counter): nat {
    if cs == [] then 0 else (if cs[0] == c then 1 else 0) + Occurrences(cs[1..], c)
  }

  lemma TouchedHits(o: Outcome, c: Counter)
    ensures Occurrences(Touched(o), c) == Hits(o, c)
  {
    var last := [Bucket(o.risk)];
    assert last[1..] == [];
    if o.collided {
      assert Touched(o)[1..] == [Collisions, Bucket(o.risk)];
      assert Touched(o)[1..][1..] == last;
    } else {
      assert Touched(o)[1..] == last;
    }
    assert Occurrences(last, c) == (if Bucket(o.risk) == c then 1 else 0);
  }

  /** Two tallies are equal exactly when they agree on every counter. */
  lemma TallyExtensional(a: Tally, b: Tally)
    ensures a == b <==> forall c: Counter :: Get(a, c) == Get(b, c)
  {
    if forall c: Counter :: Get(a, c) == Get(b, c) {
      assert Get(a, Total) == Get(b, Total) && Get(a, Collisions) == Get(b, Collisions);
      forall r: int | 0 <= r < 5
        ensures a.hist[r] == b.hist[r]
      {
        assert Get(a, Bucket(r)) == Get(b, Bucket(r));
      }
      assert a.hist == b.hist;
    }
  }

  lemma GetAddTrial(t: Tally, o: Outcome, c: Counter)
    ensures Get(AddTrial(t, o), c) == Get(t, c) + Hits(o, c)
  {
  }

  lemma GetPut(t: Tally, d: Counter, v: int, c: Counter)
    ensures Get(Put(t, d, v), c) == if c == d then v else Get(t, c)
  {
  }

  lemma GetZero(c: Counter)
    ensures Get(ZERO, c) == 0
  {
  }

  lemma GetAdd(a: Tally, b: Tally, c: Counter)
    ensures Get(Add(a, b), c) == Get(a, c) + Get(b, c)
  {
  }

  /** Histograms that are bounded bucket by bucket and have the same sum are equal. */
  lemma BoundedSameSum(a: Tally, b: Tally)
    requires forall r: Risk :: Get(a, Bucket(r)) <= Get(b, Bucket(r))
    requires HistSum(a) == HistSum(b)
    ensures a.hist == b.hist
  {
    assert Get(a, Bucket(0)) <= Get(b, Bucket(0)) && Get(a, Bucket(1)) <= Get(b, Bucket(1));
    assert Get(a, Bucket(2)) <= Get(b, Bucket(2)) && Get(a, Bucket(3)) <= Get(b, Bucket(3));
    assert Get(a, Bucket(4)) <= Get(b, Bucket(4));
  }

  /** Every counter of r is non-negative and at most that of q. */
  ghost predicate Undercounts(r: Tally, q: Tally) {
    forall c: Counter :: 0 <= Get(r, c) <= Get(q, c)
  }

  /** No counter of r exceeds its value in the tally of the trials in [lo, hi). */
  ghost predicate UndercountsRange(r: Tally, f: int -> Outcome, lo: int, hi: int) {
    Undercounts(r, RangeTally(f, lo, hi))
  }

  // ----- Merging is a commutative monoid -----

  lemma AddCommutes(a: Tally, b: Tally)
    ensures Add(a, b) == Add(b, a)
  {
    assert Add(a, b).hist == Add(b, a).hist;
  }

  lemma AddAssociates(a: Tally, b: Tally, c: Tally)
    ensures Add(Add(a, b), c) == Add(a, Add(b, c))
  {
    assert Add(Add(a, b), c).hist == Add(a, Add(b, c)).hist;
  }

  lemma AddZero(a: Tally)
    ensures Add(a, ZERO) == a && Add(ZERO, a) == a
  {
    assert Add(a, ZERO).hist == a.hist && Add(ZERO, a).hist == a.hist;
  }

  lemma AddTrialIntoSum(a: Tally, b: Tally, o: Outcome)
    ensures Add(a, AddTrial(b, o)) == AddTrial(Add(a, b), o)
  {
    assert Add(a, AddTrial(b, o)).hist == AddTrial(Add(a, b), o).hist;
  }

  /** Splitting an index range and merging the two tallies loses and adds nothing. */
  lemma {:induction false} RangeSplit(f: int -> Outcome, lo: int, mid: int, hi: int)
    requires lo <= mid <= hi
    ensures Add(RangeTally(f, lo, mid), RangeTally(f, mid, hi)) == RangeTally(f, lo, hi)
    decreases hi - mid
  {
    if mid == hi {
      AddZero(RangeTally(f, lo, mid));
    } else {
      RangeSplit(f, lo, mid, hi - 1);
      AddTrialIntoSum(RangeTally(f, lo, mid), RangeTally(f, mid, hi - 1), f(hi - 1));
    }
  }

  // ----- What a tally of a range of trials looks like -----

  lemma HistSumAddTrial(t: Tally, o: Outcome)
    ensures HistSum(AddTrial(t, o)) == HistSum(t) + 1
  {
  }

  /** Every counter is between 0 and the number of trials, and the buckets sum to that number:
      in particular no counter and no partial histogram sum overflows a type that holds `hi - lo`. */
  lemma {:induction false} CountersWithinTrials(f: int -> Outcome, lo: int, hi: int)
    requires lo <= hi
    ensures var t := RangeTally(f, lo, hi);
      && t.total == HistSum(t) == hi - lo
      && forall c: Counter :: 0 <= Get(t, c) <= hi - lo
    decreases hi - lo
  {
    if lo < hi {
      CountersWithinTrials(f, lo, hi - 1);
      HistSumAddTrial(RangeTally(f, lo, hi - 1), f(hi - 1));
      forall c: Counter
        ensures 0 <= Get(RangeTally(f, lo, hi), c) <= hi - lo
      {
        assert 0 <= Get(RangeTally(f, lo, hi - 1), c) <= hi - 1 - lo;
      }
    }
  }

  /** A longer range has at least the counters of a shorter one. */
  lemma RangeMonotone(f: int -> Outcome, lo: int, mid: int, hi: int, c: Counter)
    requires lo <= mid <= hi
    ensures 0 <= Get(RangeTally(f, lo, mid), c) <= Get(RangeTally(f, lo, hi), c)
  {
    RangeSplit(f, lo, mid, hi);
    GetAdd(RangeTally(f, lo, mid), RangeTally(f, mid, hi), c);
    CountersWithinTrials(f, lo, mid);
    CountersWithinTrials(f, mid, hi);
  }

  /** The tally of all trials passes the validity check: `valid == 1` for the sequential result. */
  lemma SequentialIsValid(f: int -> Outcome, trials: int)
    requires 0 < trials
    ensures IsValid(RangeTally(f, 0, trials), trials)
  {
    CountersWithinTrials(f, 0, trials);
    assert 0 <= Get(RangeTally(f, 0, trials), Collisions) <= trials;
  }

  function Where(P: int -> bool, lo: int, hi: int): set<int> { set i: int | lo <= i < hi && P(i) }

  lemma WhereSnoc(P: int -> bool, lo: int, hi: int)
    requires lo < hi
    ensures |Where(P, lo, hi)| == |Where(P, lo, hi - 1)| + if P(hi - 1) then 1 else 0
  {
    var before := Where(P, lo, hi - 1);
    assert Where(P, lo, hi) == if P(hi - 1) then before + {hi - 1} else before;
  }

  function HasRisk(f: int -> Outcome, r: Risk): int -> bool { (i: int) => f(i).risk == r }

  function Collided(f: int -> Outcome): int -> bool { (i: int) => f(i).collided }

  /** A bucket counts the trials with its risk, and the collision count the trials that collided. */
  lemma {:induction false} CountersCountTrials(f: int -> Outcome, lo: int, hi: int, r: Risk)
    requires lo <= hi
    ensures RangeTally(f, lo, hi).hist[r] == |Where(HasRisk(f, r), lo, hi)|
    ensures RangeTally(f, lo, hi).collisions == |Where(Collided(f), lo, hi)|
    decreases hi - lo
  {
    if lo == hi {
      assert Where(HasRisk(f, r), lo, hi) == {} && Where(Collided(f), lo, hi) == {};
    } else {
      CountersCountTrials(f, lo, hi - 1, r);
      WhereSnoc(HasRisk(f, r), lo, hi);
      WhereSnoc(Collided(f), lo, hi);
    }
  }

  lemma {:induction false} RangeAgrees(f: int -> Outcome, g: int -> Outcome, lo: int, hi: int)
    requires forall i :: lo <= i < hi ==> f(i) == g(i)
    ensures RangeTally(f, lo, hi) == RangeTally(g, lo, hi)
    decreases hi - lo
  {
    if lo < hi {
      RangeAgrees(f, g, lo, hi - 1);
    }
  }

  lemma PositiveBucket(t: Tally) returns (r: Risk)
    requires HistSum(t) > 0
    ensures t.hist[r] > 0
  {
    r := if t.hist[0] > 0 then 0 else if t.hist[1] > 0 then 1 else if t.hist[2] > 0 then 2
         else if t.hist[3] > 0 then 3 else 4;
  }

  ghost predicate IsTallyOf(t: Tally, f: int -> Outcome, n: nat) { RangeTally(f, 0, n) == t }

  lemma {:induction false} Realize(t: Tally, n: nat) returns (f: int -> Outcome)
    requires t.total == HistSum(t) == n && 0 <= t.collisions <= n && forall r: Risk :: 0 <= Get(t, Bucket(r))
    ensures IsTallyOf(t, f, n)
    decreases n
  {
    if n == 0 {
      assert Get(t, Bucket(0)) >= 0 && Get(t, Bucket(1)) >= 0 && Get(t, Bucket(2)) >= 0;
      assert Get(t, Bucket(3)) >= 0 && Get(t, Bucket(4)) >= 0;
      assert t.hist == ZERO.hist;
      f := _ => Outcome(0, false);
    } else {
      var r := PositiveBucket(t);
      var o := Outcome(r, t.collisions > 0);
      var before := Tally(t.total - 1, if o.collided then t.collisions - 1 else t.collisions,
                          t.hist[r := t.hist[r] - 1]);
      assert AddTrial(before, o).hist == t.hist;
      HistSumAddTrial(before, o);
      forall b: Risk
        ensures 0 <= Get(before, Bucket(b))
      {
        assert 0 <= Get(t, Bucket(b));
      }
      var g := Realize(before, n - 1);
      f := (i: int) => if i == n - 1 then o else g(i);
      RangeAgrees(f, g, 0, n - 1);
    }
  }

  /** What the validity check means: a record without negative buckets is valid exactly when some outcomes of
      `expected` trials lead to it. */
  lemma ValidIffRealizable(t: Tally, expected: int)
    requires forall r: Risk :: 0 <= Get(t, Bucket(r))
    ensures IsValid(t, expected) <==> expected > 0 && exists f :: IsTallyOf(t, f, expected)
  {
    if IsValid(t, expected) {
      var f := Realize(t, expected);
    }
    if expected > 0 {
      forall f | IsTallyOf(t, f, expected)
        ensures IsValid(t, expected)
      {
        SequentialIsValid(f, expected);
      }
    }
  }

  /** A trial reports a collision exactly when it lands in the collision bucket. */
  ghost predicate Coherent(f: int -> Outcome) {
    forall i :: f(i).collided <==> f(i).risk == RISK_COLLISION
  }

  lemma {:induction false} CollisionsAreTheLastBucket(f: int -> Outcome, lo: int, hi: int)
    requires Coherent(f)
    ensures RangeTally(f, lo, hi).collisions == RangeTally(f, lo, hi).hist[RISK_COLLISION]
    decreases hi - lo
  {
    if lo < hi {
      CollisionsAreTheLastBucket(f, lo, hi - 1);
    }
  }

  // ----- Sums of tallies -----

  /** Merging the tallies of the listed parts in list order, starting from zero. */
  function MergeAll(ids: seq<int>, g: int -> Tally): Tally {
    if ids == [] then ZERO else Add(MergeAll(ids[..|ids| - 1], g), g(ids[|ids| - 1]))
  }

  function Occurs(ids: seq<int>, b: int): nat {
    if ids == [] then 0 else Occurs(ids[..|ids| - 1], b) + (if ids[|ids| - 1] == b then 1 else 0)
  }

  lemma {:induction false} OccursIn(ids: seq<int>, b: int)
    ensures Occurs(ids, b) > 0 <==> b in ids
  {
    if ids != [] {
      OccursIn(ids[..|ids| - 1], b);
    }
  }

  function Without(ids: seq<int>, k: nat): seq<int>
    requires k < |ids|
  {
    ids[..k] + ids[k + 1..]
  }

  lemma WithoutInit(ids: seq<int>, k: nat)
    requires k < |ids| - 1
    ensures var rest := Without(ids, k);
      && rest[..|rest| - 1] == Without(ids[..|ids| - 1], k)
      && rest[|rest| - 1] == ids[|ids| - 1]
  {
    var rest := Without(ids, k);
    assert rest[..|rest| - 1] == Without(ids[..|ids| - 1], k);
  }

  lemma {:induction false} OccursRemove(ids: seq<int>, k: nat, b: int)
    requires k < |ids|
    ensures Occurs(Without(ids, k), b) == Occurs(ids, b) - (if ids[k] == b then 1 else 0)
  {
    var n := |ids| - 1;
    if k == n {
      assert Without(ids, k) == ids[..n];
    } else {
      WithoutInit(ids, k);
      OccursRemove(ids[..n], k, b);
    }
  }

  /** Taking one part out of a merge order takes exactly its tally out of the merged result. */
  lemma {:induction false} MergeAllRemove(ids: seq<int>, k: nat, g: int -> Tally)
    requires k < |ids|
    ensures MergeAll(ids, g) == Add(MergeAll(Without(ids, k), g), g(ids[k]))
  {
    var n := |ids| - 1;
    if k == n {
      assert Without(ids, k) == ids[..n];
    } else {
      WithoutInit(ids, k);
      MergeAllRemove(ids[..n], k, g);
      AddSwap(MergeAll(Without(ids[..n], k), g), g(ids[k]), g(ids[n]));
    }
  }

  lemma AddSwap(m: Tally, a: Tally, b: Tally)
    ensures Add(Add(m, a), b) == Add(Add(m, b), a)
  {
    AddAssociates(m, a, b);
    AddCommutes(a, b);
    AddAssociates(m, b, a);
  }

  /** The parts 0, 1, ..., n-1 merged in index order. */
  function MergeFirst(n: nat, g: int -> Tally): Tally {
    if n == 0 then ZERO else Add(MergeFirst(n - 1, g), g(n - 1))
  }

  /** Any order in which each of the parts 0..n-1 is merged exactly once gives the same result,
      and takes exactly n merges. */
  lemma {:induction false} MergeOrderIrrelevant(ids: seq<int>, n: nat, g: int -> Tally)
    requires forall b :: Occurs(ids, b) == if 0 <= b < n then 1 else 0
    ensures MergeAll(ids, g) == MergeFirst(n, g)
    ensures |ids| == n
  {
    if n == 0 {
      if ids != [] {
        OccursIn(ids, ids[0]);
        assert false;
      }
    } else {
      assert Occurs(ids, n - 1) == 1;
      OccursIn(ids, n - 1);
      var k :| 0 <= k < |ids| && ids[k] == n - 1;
      MergeAllRemove(ids, k, g);
      var rest := Without(ids, k);
      forall b
        ensures Occurs(rest, b) == if 0 <= b < n - 1 then 1 else 0
      {
        OccursRemove(ids, k, b);
      }
      MergeOrderIrrelevant(rest, n - 1, g);
    }
  }

  /** If part b covers the trials from cuts[b] to cuts[b + 1], merging the first n parts covers
      the trials from cuts[0] to cuts[n]. */
  lemma {:induction false} MergeTiles(n: nat, g: int -> Tally, f: int -> Outcome, cuts: seq<int>)
    requires n < |cuts|
    requires forall b :: 0 <= b < n ==> cuts[b] <= cuts[b + 1]
    requires forall b :: 0 <= b < n ==> g(b) == RangeTally(f, cuts[b], cuts[b + 1])
    ensures MergeFirst(n, g) == RangeTally(f, cuts[0], cuts[n]) && cuts[0] <= cuts[n]
  {
    if n > 0 {
      MergeTiles(n - 1, g, f, cuts);
      RangeSplit(f, cuts[0], cuts[n - 1], cuts[n]);
    }
  }

  /** Merging parts that undercount gives a result that undercounts. */
  lemma {:induction false} MergeUndercounts(n: nat, g: int -> Tally, h: int -> Tally)
    requires forall i :: 0 <= i < n ==> Undercounts(g(i), h(i))
    ensures Undercounts(MergeFirst(n, g), MergeFirst(n, h))
  {
    if n == 0 {
      forall c: Counter
        ensures Get(ZERO, c) == 0
      {
        GetZero(c);
      }
    } else {
      MergeUndercounts(n - 1, g, h);
      assert Undercounts(g(n - 1), h(n - 1));
      forall c: Counter
        ensures 0 <= Get(MergeFirst(n, g), c) <= Get(MergeFirst(n, h), c)
      {
        GetAdd(MergeFirst(n - 1, g), g(n - 1), c);
        GetAdd(MergeFirst(n - 1, h), h(n - 1), c);
      }
    }
  }

  ghost predicate Distinct(ids: seq<int>) {
    forall b :: Occurs(ids, b) <= 1
  }

  lemma OccursSnoc(ids: seq<int>, x: int)
    ensures forall b :: Occurs(ids + [x], b) == Occurs(ids, b) + if b == x then 1 else 0
  {
    assert (ids + [x])[..|ids|] == ids;
  }

  lemma MergeAllSnoc(ids: seq<int>, x: int, g: int -> Tally)
    ensures MergeAll(ids + [x], g) == Add(MergeAll(ids, g), g(x))
  {
    assert (ids + [x])[..|ids|] == ids;
  }

  lemma UndercountsTrans(a: Tally, b: Tally, c: Tally)
    requires Undercounts(a, b) && Undercounts(b, c)
    ensures Undercounts(a, c)
  {
    forall k: Counter
      ensures 0 <= Get(a, k) <= Get(c, k)
    {
      assert Get(a, k) <= Get(b, k) <= Get(c, k);
    }
  }

  ghost predicate NonNegative(t: Tally) {
    forall c: Counter :: 0 <= Get(t, c)
  }

  lemma UndercountsGrow(a: Tally, b: Tally, u: Tally, v: Tally)
    requires Undercounts(a, b) && Undercounts(u, v)
    ensures Undercounts(Add(a, u), Add(b, v))
  {
    forall c: Counter
      ensures 0 <= Get(Add(a, u), c) <= Get(Add(b, v), c)
    {
      GetAdd(a, u, c);
      GetAdd(b, v, c);
    }
  }

  lemma HeadIn(ids: seq<int>)
    requires ids != []
    ensures ids[0] in ids
  {
  }

  /** Merging distinct parts among the first n gives no more than merging all of them. */
  lemma {:induction false} DistinctUndercount(ids: seq<int>, n: nat, g: int -> Tally)
    requires Distinct(ids) && forall b <- ids :: 0 <= b < n
    requires forall i :: 0 <= i < n ==> NonNegative(g(i))
    ensures Undercounts(MergeAll(ids, g), MergeFirst(n, g))
  {
    if n == 0 {
      if ids != [] {
        HeadIn(ids);
        assert false;
      }
      forall c: Counter
        ensures Get(ZERO, c) == 0
      {
        GetZero(c);
      }
    } else {
      var last := g(n - 1);
      assert NonNegative(last);
      if n - 1 in ids {
        var k :| 0 <= k < |ids| && ids[k] == n - 1;
        var rest := Without(ids, k);
        WithoutLargest(ids, k, n);
        DistinctUndercount(rest, n - 1, g);
        MergeAllRemove(ids, k, g);
        UndercountsGrow(MergeAll(rest, g), MergeFirst(n - 1, g), last, last);
      } else {
        DistinctUndercount(ids, n - 1, g);
        AddZero(MergeAll(ids, g));
        ZeroUndercounts(last);
        UndercountsGrow(MergeAll(ids, g), MergeFirst(n - 1, g), ZERO, last);
      }
    }
  }

  lemma ZeroUndercounts(t: Tally)
    requires NonNegative(t)
    ensures Undercounts(ZERO, t)
  {
    forall c: Counter
      ensures Get(ZERO, c) == 0
    {
      GetZero(c);
    }
  }

  lemma WithoutLargest(ids: seq<int>, k: nat, n: nat)
    requires Distinct(ids) && k < |ids| && ids[k] == n - 1 && forall b <- ids :: 0 <= b < n
    ensures Distinct(Without(ids, k)) && forall b <- Without(ids, k) :: 0 <= b < n - 1
  {
    var rest := Without(ids, k);
    forall b
      ensures Occurs(rest, b) <= 1 && (b == n - 1 ==> Occurs(rest, b) == 0)
    {
      OccursRemove(ids, k, b);
    }
    forall b <- rest
      ensures 0 <= b < n - 1
    {
      assert b in ids;
      OccursIn(rest, b);
    }
  }
}
