/** The checksum of a tally: a 64-bit multiply-and-xor chain over the seven counters.

    Source: result_compute_checksum (src/result.c). The script that compares the modes looks at validity and
    checksums only, so what matters is which differences between two results the checksum is sure to show. */
module Checksums {
  import opened Words
  import opened Tallies

  const OFFSET: Word64 := 1469598103934665603
  const PRIME := 1099511628211
  const PRIME_INVERSE := 0xCE965057AFF6957B

  const LONG_MIN: int := -0x8000_0000_0000_0000
  const LONG_MAX: int := 0x7FFF_FFFF_FFFF_FFFF

  function Mix(hash: Word64, word: Word64): Word64 {
    Xor64(hash, word) * PRIME % TWO_64
  }

  function Chain(hash: Word64, words: seq<Word64>): Word64
    decreases |words|
  {
    if words == [] then hash else Chain(Mix(hash, words[0]), words[1..])
  }

  lemma ChainStep(hash: Word64, words: seq<Word64>)
    requires words != []
    ensures Chain(hash, words) == Chain(Mix(hash, words[0]), words[1..])
  {
  }

  /** The words fed to the chain: bucket i is offset by i + 1 with 64-bit wrap-around. */
  function ChecksumWords(t: Tally): (ws: seq<Word64>)
    ensures |ws| == 2 + RISK_BUCKETS
  {
    [ToWord64(t.total), ToWord64(t.collisions)] +
    seq(RISK_BUCKETS, i requires 0 <= i < RISK_BUCKETS => ToWord64(ToWord64(t.hist[i]) + ToWord64(i + 1)))
  }

  function Checksum(t: Tally): Word64 {
    Chain(OFFSET, ChecksumWords(t))
  }

  /** The inverse of one mixing step in its hash argument, and (by symmetry of xor) in its word. */
  function Unmix(mixed: Word64, other: Word64): Word64 {
    Xor64(mixed * PRIME_INVERSE % TWO_64, other)
  }

  lemma UnmixMix(hash: Word64, word: Word64)
    ensures Unmix(Mix(hash, word), word) == hash
    ensures Unmix(Mix(hash, word), hash) == word
  {
    MulInverse(Xor64(hash, word), PRIME, PRIME_INVERSE, TWO_64);
    XorCancels(hash, word);
    XorCommutes(hash, word);
    XorCancels(word, hash);
  }

  lemma MixUnmix(mixed: Word64, other: Word64)
    ensures Mix(Unmix(mixed, other), other) == mixed
    ensures Mix(other, Unmix(mixed, other)) == mixed
  {
    var product: Word64 := mixed * PRIME_INVERSE % TWO_64;
    assert product * PRIME % TWO_64 == mixed by {
      MulInverse(mixed, PRIME_INVERSE, PRIME, TWO_64);
    }
    XorCancels(product, other);
    XorCommutes(Xor64(product, other), other);
  }

  /** For fixed words the chain is injective in the hash it starts from. */
  lemma {:induction false} ChainInjectiveInHash(h: Word64, k: Word64, words: seq<Word64>)
    requires Chain(h, words) == Chain(k, words)
    ensures h == k
    decreases |words|
  {
    if words != [] {
      ChainInjectiveInHash(Mix(h, words[0]), Mix(k, words[0]), words[1..]);
      UnmixMix(h, words[0]);
      UnmixMix(k, words[0]);
    }
  }

  /** Two word lists that differ at exactly one position give different hashes. */
  lemma {:induction false} ChainInjectiveInOneWord(h: Word64, words: seq<Word64>, i: nat, w: Word64)
    requires i < |words|
    requires Chain(h, words) == Chain(h, words[i := w])
    ensures words[i] == w
    decreases |words|
  {
    if i == 0 {
      assert words[i := w][1..] == words[1..];
      ChainInjectiveInHash(Mix(h, words[0]), Mix(h, w), words[1..]);
      UnmixMix(h, words[0]);
      UnmixMix(h, w);
    } else {
      assert words[i := w][1..] == words[1..][i - 1 := w];
      ChainInjectiveInOneWord(Mix(h, words[0]), words[1..], i - 1, w);
    }
  }

  /** The hash to start from so that the chain ends in `target`. */
  function Unchain(target: Word64, words: seq<Word64>): (h: Word64)
    ensures Chain(h, words) == target
    decreases |words|
  {
    if words == [] then target
    else
      var rest := Unchain(target, words[1..]);
      MixUnmix(rest, words[0]);
      Unmix(rest, words[0])
  }

  /** Every hash is reached by choosing one word, the others being fixed. */
  lemma {:induction false} ChainSurjectiveInOneWord(h: Word64, words: seq<Word64>, i: nat, target: Word64)
    returns (w: Word64)
    requires i < |words|
    ensures Chain(h, words[i := w]) == target
    decreases |words|
  {
    if i == 0 {
      var mixed := Unchain(target, words[1..]);
      w := Unmix(mixed, h);
      MixUnmix(mixed, h);
      assert words[i := w][1..] == words[1..];
    } else {
      w := ChainSurjectiveInOneWord(Mix(h, words[0]), words[1..], i - 1, target);
      assert words[i := w][1..] == words[1..][i - 1 := w];
    }
  }

  function Position(c: Counter): nat {
    match c
    case Total => 0
    case Collisions => 1
    case Bucket(r) => 2 + r
  }

  /** The word that counter `c` contributes when it holds the value `v`. */
  function CounterWord(c: Counter, v: int): Word64 {
    match c
    case Total => ToWord64(v)
    case Collisions => ToWord64(v)
    case Bucket(r) => ToWord64(ToWord64(v) + ToWord64(r + 1))
  }

  lemma PutChangesOneWord(t: Tally, c: Counter, v: int)
    ensures ChecksumWords(t)[Position(c)] == CounterWord(c, Get(t, c))
    ensures ChecksumWords(Put(t, c, v)) == ChecksumWords(t)[Position(c) := CounterWord(c, v)]
  {
  }

  lemma CounterWordInjective(c: Counter, v: int, w: int)
    requires LONG_MIN <= v <= LONG_MAX && LONG_MIN <= w <= LONG_MAX
    requires CounterWord(c, v) == CounterWord(c, w)
    ensures v == w
  {
    assert ToWord64(v) == ToWord64(w) by {
      if c.Bucket? {
        AddInjective(ToWord64(v), ToWord64(w), ToWord64(c.risk + 1), TWO_64);
        CongruentAndClose(ToWord64(v), ToWord64(w), TWO_64);
      }
    }
    CongruentAndClose(v, w, TWO_64);
  }

  /** The value of a C `long` whose counter word is `word`. */
  function CounterOfWord(c: Counter, word: Word64): int {
    var shift := if c.Bucket? then c.risk + 1 else 0;
    var w := if word >= shift then word - shift else word - shift + TWO_64;
    if w <= LONG_MAX then w else w - TWO_64
  }

  lemma CounterOfWordInverts(c: Counter, word: Word64)
    ensures LONG_MIN <= CounterOfWord(c, word) <= LONG_MAX
    ensures CounterWord(c, CounterOfWord(c, word)) == word
  {
    var shift := if c.Bucket? then c.risk + 1 else 0;
    var w := if word >= shift then word - shift else word - shift + TWO_64;
    var v := CounterOfWord(c, word);
    ModUnique(v, if w <= LONG_MAX then 0 else -1, w, TWO_64);
    assert ToWord64(v) == w;
    if c.Bucket? {
      ModUnique(shift, 0, shift, TWO_64);
      ModUnique(w + shift, if word >= shift then 0 else 1, word, TWO_64);
    }
  }

  /** Changing exactly one counter always changes the checksum. */
  lemma ChecksumDetectsOneCounter(t: Tally, c: Counter, v: int)
    requires LONG_MIN <= Get(t, c) <= LONG_MAX && LONG_MIN <= v <= LONG_MAX
    requires v != Get(t, c)
    ensures Checksum(Put(t, c, v)) != Checksum(t)
  {
    PutChangesOneWord(t, c, v);
    if Checksum(Put(t, c, v)) == Checksum(t) {
      ChainInjectiveInOneWord(OFFSET, ChecksumWords(t), Position(c), CounterWord(c, v));
      CounterWordInjective(c, Get(t, c), v);
    }
  }

  /** ... and with the other counters fixed every checksum is reached, so the map from the 64-bit
      values of one counter to checksums is a bijection. */
  lemma ChecksumReachesEveryWord(t: Tally, c: Counter, target: Word64) returns (v: int)
    ensures LONG_MIN <= v <= LONG_MAX
    ensures Checksum(Put(t, c, v)) == target
  {
    var w := ChainSurjectiveInOneWord(OFFSET, ChecksumWords(t), Position(c), target);
    v := CounterOfWord(c, w);
    CounterOfWordInverts(c, w);
    PutChangesOneWord(t, c, v);
  }

  // ----- The checksum without the chain -----

  /** Running the chain backwards over the words of a tally ends in the start value. */
  lemma ChainStartsAt(t: Tally)
    ensures Unchain(Checksum(t), ChecksumWords(t)) == 1469598103934665603
  {
    ChainInjectiveInHash(Unchain(Checksum(t), ChecksumWords(t)), OFFSET, ChecksumWords(t));
  }

  // `next` is (`hash` ^ `word`) * 1099511628211 with 64-bit wrap-around.
  ghost predicate Mixed(hash: Word64, word: int, next: Word64) {
    next as int == Xor(hash, word % 0x1_0000_0000_0000_0000) * 1099511628211 % 0x1_0000_0000_0000_0000
  }

  /** The checksum in seven steps from the start value over the trial count, the collision count and the
      buckets, each with its number added. */
  lemma ChecksumInSevenSteps(t: Tally) returns (h: seq<Word64>)
    ensures |h| == 8 && h[0] == 1469598103934665603 && h[7] == Checksum(t)
    ensures Mixed(h[0], t.total, h[1]) && Mixed(h[1], t.collisions, h[2])
    ensures Mixed(h[2], t.hist[0] + 1, h[3]) && Mixed(h[3], t.hist[1] + 2, h[4]) && Mixed(h[4], t.hist[2] + 3, h[5])
    ensures Mixed(h[5], t.hist[3] + 4, h[6]) && Mixed(h[6], t.hist[4] + 5, h[7])
  {
    var w := ChecksumWords(t);
    h := Trail(OFFSET, w);
    TrailIsChain(OFFSET, w);
    BucketWord(t, 0); BucketWord(t, 1); BucketWord(t, 2); BucketWord(t, 3); BucketWord(t, 4);
    MixedByWord(h[0], t.total, w[0]);
    MixedByWord(h[1], t.collisions, w[1]);
    MixedByWord(h[2], t.hist[0] + 1, w[2]);
    MixedByWord(h[3], t.hist[1] + 2, w[3]);
    MixedByWord(h[4], t.hist[2] + 3, w[4]);
    MixedByWord(h[5], t.hist[3] + 4, w[5]);
    MixedByWord(h[6], t.hist[4] + 5, w[6]);
  }

  lemma MixedByWord(hash: Word64, v: int, word: Word64)
    requires word == ToWord64(v)
    ensures Mixed(hash, v, Mix(hash, word))
  {
  }

  lemma BucketWord(t: Tally, r: Risk)
    ensures ChecksumWords(t)[2 + r] == ToWord64(t.hist[r] + (r + 1))
  {
    WrapTwice(t.hist[r], r + 1);
  }

  lemma WrapTwice(a: int, b: int)
    ensures ToWord64(ToWord64(a) + ToWord64(b)) == (a + b) % TWO_64
  {
    var q := a / TWO_64 + b / TWO_64;
    assert a + b == q * TWO_64 + (a % TWO_64 + b % TWO_64);
  }

  /** The hashes along the chain. */
  function Trail(hash: Word64, words: seq<Word64>): (h: seq<Word64>)
    ensures |h| == |words| + 1 && h[0] == hash
    decreases |words|
  {
    if words == [] then [hash] else [hash] + Trail(Mix(hash, words[0]), words[1..])
  }

  lemma {:induction false} TrailIsChain(hash: Word64, words: seq<Word64>)
    ensures var h := Trail(hash, words);
      h[|words|] == Chain(hash, words) && forall k :: 0 <= k < |words| ==> h[k + 1] == Mix(h[k], words[k])
    decreases |words|
  {
    if words != [] {
      TrailIsChain(Mix(hash, words[0]), words[1..]);
    }
  }

  predicate Odd(n: int) { n % 2 == 1 }

  // An odd number of the words is odd.
  predicate OddSum(words: seq<Word64>) {
    words != [] && (Odd(words[0]) != OddSum(words[1..]))
  }

  lemma OddPlus(a: int, b: int)
    ensures Odd(a + b) <==> Odd(a) != Odd(b)
  {
  }

  lemma EvenPlus(x: int, r: int)
    ensures Odd(2 * x + r) <==> Odd(r)
  {
  }

  lemma OddWrap(a: int)
    ensures Odd(ToWord64(a)) <==> Odd(a)
  {
    var q := a / TWO_64;
    EvenPlus(q * 0x8000_0000_0000_0000, a % TWO_64);
    assert a == 2 * (q * 0x8000_0000_0000_0000) + a % TWO_64;
  }

  lemma OddMix(hash: Word64, word: Word64)
    ensures Odd(Mix(hash, word)) <==> Odd(hash) != Odd(word)
  {
    var x: int := Xor64(hash, word);
    OddXor(hash, word);
    OddWrap(x * PRIME);
    EvenPlus(x * 549755814105, x);
    assert x * PRIME == 2 * (x * 549755814105) + x;
  }

  lemma OddXor(a: nat, b: nat)
    ensures Odd(Xor(a, b)) <==> Odd(a) != Odd(b)
  {
    if a != 0 || b != 0 {
      EvenPlus(Xor(a / 2, b / 2), (a % 2 + b % 2) % 2);
    }
  }

  lemma {:induction false} OddChain(hash: Word64, words: seq<Word64>)
    ensures Odd(Chain(hash, words)) <==> Odd(hash) != OddSum(words)
    decreases |words|
  {
    if words != [] {
      OddChain(Mix(hash, words[0]), words[1..]);
      OddMix(hash, words[0]);
    }
  }

  lemma OddWords(t: Tally)
    requires t.total == HistSum(t)
    ensures OddSum(ChecksumWords(t)) <==> !Odd(t.collisions)
  {
    OddWrap(t.total);
    OddWrap(t.collisions);
    OddBucket(t, 0); OddBucket(t, 1); OddBucket(t, 2); OddBucket(t, 3); OddBucket(t, 4);
    OddSumOfSeven(ChecksumWords(t));
    OddHistSum(t);
  }

  /** When the buckets sum to the trial count, the checksum is odd exactly when the collision count is. */
  lemma ChecksumParity(t: Tally)
    requires t.total == HistSum(t)
    ensures Odd(Checksum(t)) <==> Odd(t.collisions)
  {
    OddWords(t);
    OddChain(OFFSET, ChecksumWords(t));
  }

  lemma OddBucket(t: Tally, r: Risk)
    ensures Odd(ChecksumWords(t)[2 + r]) <==> Odd(t.hist[r]) != Odd(r + 1)
  {
    WrapTwice(t.hist[r], r + 1);
    OddWrap(t.hist[r] + (r + 1));
    OddPlus(t.hist[r], r + 1);
  }

  lemma OddHistSum(t: Tally)
    ensures Odd(HistSum(t)) <==>
      (Odd(t.hist[0]) != (Odd(t.hist[1]) != (Odd(t.hist[2]) != (Odd(t.hist[3]) != Odd(t.hist[4])))))
  {
    OddPlus(t.hist[3], t.hist[4]);
    OddPlus(t.hist[2], t.hist[3] + t.hist[4]);
    OddPlus(t.hist[1], t.hist[2] + t.hist[3] + t.hist[4]);
    OddPlus(t.hist[0], t.hist[1] + t.hist[2] + t.hist[3] + t.hist[4]);
  }

  lemma OddSumOfSeven(w: seq<Word64>)
    requires |w| == 7
    ensures OddSum(w) <==>
      (Odd(w[0]) != (Odd(w[1]) != (Odd(w[2]) != (Odd(w[3]) != (Odd(w[4]) != (Odd(w[5]) != Odd(w[6])))))))
  {
    assert OddSum(w[6..]) == Odd(w[6]);
    assert OddSum(w[5..]) == (Odd(w[5]) != OddSum(w[6..]));
    assert OddSum(w[4..]) == (Odd(w[4]) != OddSum(w[5..]));
    assert OddSum(w[3..]) == (Odd(w[3]) != OddSum(w[4..]));
    assert OddSum(w[2..]) == (Odd(w[2]) != OddSum(w[3..]));
    assert OddSum(w[1..]) == (Odd(w[1]) != OddSum(w[2..]));
  }

  // ----- The mode check: valid and same checksum (scripts/test_modes.sh) -----

  /** For a result that can only have lost updates, the validity check alone is exact for every counter
      but one: a valid result has the right trial count and histogram and may only lack collisions. */
  lemma ValidityOfUndercount(r: Tally, q: Tally, n: int)
    requires IsValid(q, n) && Undercounts(r, q)
    ensures IsValid(r, n) <==> r.total == q.total && r.hist == q.hist
  {
    assert 0 <= Get(r, Collisions) <= Get(q, Collisions);
    if IsValid(r, n) {
      BoundedSameSum(r, q);
    }
  }

  /** ... and together with the checksum it is exact: such a result is valid and has the checksum of q
      exactly when it is q. */
  lemma ModeCheckOfUndercount(r: Tally, q: Tally, n: int)
    requires IsValid(q, n) && n <= LONG_MAX && Undercounts(r, q)
    ensures IsValid(r, n) && Checksum(r) == Checksum(q) <==> r == q
  {
    ValidityOfUndercount(r, q, n);
    assert 0 <= Get(r, Collisions) <= Get(q, Collisions) <= n;
    if IsValid(r, n) && r != q {
      assert r == Put(q, Collisions, r.collisions);
      ChecksumDetectsOneCounter(q, Collisions, r.collisions);
    }
  }
}
