/** Sums of an integer weight over a sequence, used to count threads and items. */
module Sums {
  function Sum<T>(s: seq<T>, f: T -> int): int {
    if s == [] then 0 else f(s[0]) + Sum(s[1..], f)
  }

  lemma {:induction false} SumConcat<T>(s: seq<T>, t: seq<T>, f: T -> int)
    ensures Sum(s + t, f) == Sum(s, f) + Sum(t, f)
  {
    if s == [] {
      assert s + t == t;
    } else {
      assert (s + t)[1..] == s[1..] + t;
      SumConcat(s[1..], t, f);
    }
  }

  lemma SumSnoc<T>(s: seq<T>, x: T, f: T -> int)
    ensures Sum(s + [x], f) == Sum(s, f) + f(x)
  {
    SumConcat(s, [x], f);
  }

  /** Replacing one element changes the sum by the difference of the two weights. */
  lemma {:induction false} SumUpdate<T>(s: seq<T>, k: nat, x: T, f: T -> int)
    requires k < |s|
    ensures Sum(s[k := x], f) == Sum(s, f) - f(s[k]) + f(x)
  {
    if k == 0 {
      assert s[k := x][1..] == s[1..];
    } else {
      assert s[k := x][1..] == s[1..][k - 1 := x];
      SumUpdate(s[1..], k - 1, x, f);
    }
  }

  lemma {:induction false} SumRemove<T>(s: seq<T>, k: nat, f: T -> int)
    requires k < |s|
    ensures Sum(s[..k] + s[k + 1..], f) == Sum(s, f) - f(s[k])
  {
    SumConcat(s[..k], s[k + 1..], f);
    SumConcat(s[..k], s[k..], f);
    assert s == s[..k] + s[k..];
    assert s[k..][1..] == s[k + 1..];
  }

  lemma {:induction false} SumBounds<T>(s: seq<T>, f: T -> int, lo: int, hi: int)
    requires forall x <- s :: lo <= f(x) <= hi
    ensures |s| * lo <= Sum(s, f) <= |s| * hi
  {
    if s != [] {
      SumBounds(s[1..], f, lo, hi);
      assert |s| * lo == (|s| - 1) * lo + lo && |s| * hi == (|s| - 1) * hi + hi;
    }
  }

  /** A sum of non-negative weights is at least any one of them. */
  lemma {:induction false} SumAtLeast<T>(s: seq<T>, k: nat, f: T -> int)
    requires k < |s|
    requires forall x <- s :: 0 <= f(x)
    ensures f(s[k]) <= Sum(s, f)
  {
    SumBounds(s[1..], f, 0, SumBoundOf(s[1..], f));
    if k > 0 {
      SumAtLeast(s[1..], k - 1, f);
    }
  }

  /** ... and at least any two of them together. */
  lemma SumAtLeastTwo<T>(s: seq<T>, i: nat, j: nat, f: T -> int)
    requires i < |s| && j < |s| && i != j
    requires forall x <- s :: 0 <= f(x)
    ensures f(s[i]) + f(s[j]) <= Sum(s, f)
  {
    var rest := s[..i] + s[i + 1..];
    SumRemove(s, i, f);
    SumAtLeast(rest, if j < i then j else j - 1, f);
  }

  ghost function SumBoundOf<T>(s: seq<T>, f: T -> int): (b: int)
    ensures forall x <- s :: f(x) <= b
  {
    if s == [] then 0
    else var b := SumBoundOf(s[1..], f); if f(s[0]) < b then b else f(s[0])
  }

  /** A positive sum has a positive summand. */
  lemma {:induction false} SumWitness<T>(s: seq<T>, f: T -> int) returns (k: nat)
    requires Sum(s, f) > 0
    ensures k < |s| && f(s[k]) > 0
  {
    if f(s[0]) > 0 {
      k := 0;
    } else {
      k := SumWitness(s[1..], f);
      k := k + 1;
    }
  }

  lemma {:induction false} SumAtMost<T>(s: seq<T>, f: T -> int, g: T -> int)
    requires forall x <- s :: f(x) <= g(x)
    ensures Sum(s, f) <= Sum(s, g)
  {
    if s != [] {
      SumAtMost(s[1..], f, g);
    }
  }

  lemma {:induction false} SumPointwise<T>(s: seq<T>, t: seq<T>, f: T -> int, g: T -> int)
    requires |s| == |t|
    requires forall i :: 0 <= i < |s| ==> f(s[i]) == g(t[i])
    ensures Sum(s, f) == Sum(t, g)
  {
    if s != [] {
      assert forall i :: 0 <= i < |s[1..]| ==> s[1..][i] == s[i + 1] && t[1..][i] == t[i + 1];
      SumPointwise(s[1..], t[1..], f, g);
    }
  }
}
