/** Static partitions of the index range [0, n) among k workers, flat and two-level.

    Source: partition_work (src/thread_mode.c), process_partition (src/process_mode.c),
    hybrid_partition and the thread split inside run_child_thread_group (src/hybrid_mode.c). The four
    copies compute the same two numbers. */
module Partitions {
  import opened Words
  import opened Tallies

  function Min(a: int, b: int): int { if a < b then a else b }

  function PartStart(n: int, k: int, i: int): int
    requires k > 0
  {
    i * (n / k) + Min(i, n % k)
  }

  function PartEnd(n: int, k: int, i: int): int
    requires k > 0
  {
    PartStart(n, k, i) + n / k + (if i < n % k then 1 else 0)
  }

  /** Neighbouring parts touch, the first starts at 0 and the last ends at n; the first n % k parts are longer
      by one than the others. */
  lemma PartsTile(n: nat, k: int, i: nat)
    requires 0 < k && i < k
    ensures PartStart(n, k, 0) == 0 && PartEnd(n, k, k - 1) == n
    ensures PartEnd(n, k, i) == PartStart(n, k, i + 1)
    ensures PartEnd(n, k, i) - PartStart(n, k, i) in {n / k, n / k + 1}
    ensures PartEnd(n, k, i) - PartStart(n, k, i) == n / k + 1 <==> i < n % k
  {
    var base, rem := n / k, n % k;
    assert (i + 1) * base == i * base + base;
    assert (k - 1) * base + base == k * base;
    assert n == k * base + rem;
  }

  lemma PartsJoin(n: nat, k: int, i: nat)
    requires 0 < k && i < k
    ensures PartStart(n, k, i) <= PartEnd(n, k, i) == PartStart(n, k, i + 1)
    ensures PartStart(n, k, 0) == 0 && PartStart(n, k, k) == n
  {
    PartsTile(n, k, i);
    PartsTile(n, k, k - 1);
  }

  /** Part starts are monotone. */
  lemma {:induction false} PartStartsAscend(n: nat, k: int, i: nat, j: nat)
    requires 0 < k && i <= j <= k
    ensures PartStart(n, k, i) <= PartStart(n, k, j)
    decreases j - i
  {
    if i < j {
      PartsTile(n, k, i);
      PartStartsAscend(n, k, i + 1, j);
    }
  }

  /** No intermediate value of the partition arithmetic leaves [0, n]: if n fits in a C `long`,
      so does everything computed from it. */
  lemma PartArithmeticFits(n: nat, k: int, i: nat)
    requires 0 < k && i < k
    ensures 0 <= i * (n / k) <= PartStart(n, k, i) <= PartEnd(n, k, i) <= n
    ensures 0 <= n / k <= n && 0 <= Min(i, n % k) <= n
  {
    PartsTile(n, k, i);
    PartStartsAscend(n, k, i + 1, k);
    var base := n / k;
    NonNegativeProduct(i, base);
    NonNegativeProduct(k - 1, base);
    assert n == base + (k - 1) * base + n % k;
  }

  lemma NonNegativeProduct(a: nat, b: nat)
    ensures 0 <= a * b
  {
  }

  /** Every index belongs to exactly one part. */
  lemma {:induction false} PartOwner(n: nat, k: int, x: nat) returns (i: nat)
    requires 0 < k && x < n
    ensures i < k && PartStart(n, k, i) <= x < PartEnd(n, k, i)
    ensures forall j :: 0 <= j < k && PartStart(n, k, j) <= x < PartEnd(n, k, j) ==> j == i
  {
    PartsTile(n, k, 0);
    i := 0;
    while PartEnd(n, k, i) <= x
      invariant i < k && PartStart(n, k, i) <= x
      decreases k - i
    {
      PartsTile(n, k, i);
      if i == k - 1 {
        assert false;
      }
      i := i + 1;
    }
    forall j | 0 <= j < k && PartStart(n, k, j) <= x < PartEnd(n, k, j)
      ensures j == i
    {
      PartsTile(n, k, i);
      PartsTile(n, k, j);
      if j < i {
        PartStartsAscend(n, k, j + 1, i);
      } else if i < j {
        PartStartsAscend(n, k, i + 1, j);
      }
    }
  }

  // ----- Two levels: processes, then threads within a process -----

  function HybridStart(n: int, processes: int, threads: int, p: int, t: int): int
    requires processes > 0 && threads > 0
  {
    var s, e := PartStart(n, processes, p), PartEnd(n, processes, p);
    s + PartStart(e - s, threads, t)
  }

  function HybridEnd(n: int, processes: int, threads: int, p: int, t: int): int
    requires processes > 0 && threads > 0
  {
    var s, e := PartStart(n, processes, p), PartEnd(n, processes, p);
    s + PartEnd(e - s, threads, t)
  }

  lemma DivOfDiv(n: nat, a: int, b: int)
    requires 0 < a && 0 < b
    ensures a * b > 0 && n / a / b == n / (a * b)
  {
    var q, r := n / a, n % a;
    var q2, r2 := q / b, q % b;
    RemainderFits(a, b, r2, r);
    Regroup(a, b, q2, r2, r);
    ModUnique(n, q2, a * r2 + r, a * b);
  }

  lemma Regroup(a: int, b: int, q: int, r2: int, r: int)
    ensures a * (b * q + r2) + r == q * (a * b) + (a * r2 + r)
  {
    assert a * (b * q) == q * (a * b);
  }

  lemma RemainderFits(a: int, b: int, r2: int, r: int)
    requires 0 <= r2 < b && 0 <= r < a
    ensures 0 <= a * r2 + r < a * b
  {
    var slack := b - 1 - r2;
    assert a * slack >= 0 && a * r2 >= 0;
    assert a * b == a * (r2 + 1 + slack) == a * r2 + a + a * slack;
  }

  /** Parts of a share of size q or q + 1 have size q / k or q / k + 1. */
  lemma PartOfShare(q: nat, size: nat, k: int, i: nat)
    requires 0 < k && i < k && size in {q, q + 1}
    ensures PartEnd(size, k, i) - PartStart(size, k, i) in {q / k, q / k + 1}
  {
    if size == q + 1 {
      // The bigger share either divides as the smaller one does, or exactly into parts of a + 1.
      var a, r := q / k, q % k;
      assert q == a * k + r;
      if r + 1 == k {
        assert (a + 1) * k == a * k + k;
        ModUnique(size, a + 1, 0, k);
      } else {
        ModUnique(size, a, r + 1, k);
      }
    }
  }

  /** The thread ranges of one process tile the range of that process, and the sizes of all
      processes * threads ranges differ by at most one overall, not just within a process. */
  lemma HybridTiles(n: nat, processes: int, threads: int, p: nat, t: nat)
    requires p < processes && t < threads
    ensures HybridStart(n, processes, threads, p, 0) == PartStart(n, processes, p)
    ensures HybridEnd(n, processes, threads, p, threads - 1) == PartEnd(n, processes, p)
    ensures HybridEnd(n, processes, threads, p, t) == HybridStart(n, processes, threads, p, t + 1)
    ensures processes * threads > 0
    ensures var a := n / (processes * threads);
      HybridEnd(n, processes, threads, p, t) - HybridStart(n, processes, threads, p, t) in {a, a + 1}
    ensures 0 <= PartStart(n, processes, p) <= HybridStart(n, processes, threads, p, t)
              <= HybridEnd(n, processes, threads, p, t) <= PartEnd(n, processes, p) <= n
  {
    var s, e := PartStart(n, processes, p), PartEnd(n, processes, p);
    PartsTile(n, processes, p);
    PartArithmeticFits(n, processes, p);
    var size := e - s;
    PartsTile(size, threads, t);
    PartArithmeticFits(size, threads, t);
    DivOfDiv(n, processes, threads);
    PartOfShare(n / processes, size, threads, t);
  }

  /** `t` is the tally of part i of the n trials that start at index `base`. */
  ghost predicate IsPart(f: int -> Outcome, base: int, n: nat, k: int, i: int, t: Tally)
    requires 0 < k
  {
    t == RangeTally(f, base + PartStart(n, k, i), base + PartEnd(n, k, i))
  }

  lemma PartCuts(base: int, n: nat, k: nat) returns (cuts: seq<int>)
    requires 0 < k
    ensures |cuts| == k + 1 && cuts[0] == base && cuts[k] == base + n
    ensures forall i :: 0 <= i < k ==>
      cuts[i] == base + PartStart(n, k, i) <= cuts[i + 1] == base + PartEnd(n, k, i)
  {
    cuts := seq(k + 1, i => base + PartStart(n, k, i));
    forall i | 0 <= i < k
      ensures cuts[i] == base + PartStart(n, k, i) <= cuts[i + 1] == base + PartEnd(n, k, i)
    {
      PartsJoin(n, k, i);
    }
    PartsJoin(n, k, 0);
  }

  /** Merging the tallies of all parts gives the tally of the whole range. */
  lemma PartsMergeToWhole(f: int -> Outcome, base: int, n: nat, k: nat, g: int -> Tally)
    requires 0 < k
    requires forall i :: 0 <= i < k ==> IsPart(f, base, n, k, i, g(i))
    ensures MergeFirst(k, g) == RangeTally(f, base, base + n)
  {
    var cuts := PartCuts(base, n, k);
    forall i | 0 <= i < k
      ensures g(i) == RangeTally(f, cuts[i], cuts[i + 1])
    {
      assert IsPart(f, base, n, k, i, g(i));
    }
    MergeTiles(k, g, f, cuts);
  }
}
