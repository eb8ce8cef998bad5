/**
 Shannon entropy of a byte distribution, with the base-2 logarithm left
 abstract: every function takes `log2` as a parameter, and the lemmas state
 what they need of it (at most `log2(1.0) == 0.0`, or that it is
 non-positive on (0, 1]).

 The whole-file computation subtracts one term per table entry from a running
 value that starts at 0; the per-window computation negates the sum of the
 same terms. Both visit byte values in ascending order, which in exact
 arithmetic gives the same value as any other order.
 */
module Entropy {
  import opened Frequency
  import opened Probability

  /** The terms `p * log2(p)`, one per byte value that occurs. */
  function Terms(p: Distribution, log2: real -> real): (m: map<byte, real>)
    ensures m.Keys == p.Keys
  {
    map b | b in p :: p[b] * log2(p[b])
  }

  /**
   The whole-file loop: starting from `entropy`, subtracts `prob * log2(prob)`
   for each byte value from `b` up to 255 that has a probability.
   */
  function Accumulate(p: Distribution, log2: real -> real, b: nat, entropy: real): real
    decreases 256 - b
  {
    if b >= 256 then entropy
    else if b in p then Accumulate(p, log2, b + 1, entropy - p[b] * log2(p[b]))
    else Accumulate(p, log2, b + 1, entropy)
  }

  /** The entropy of the whole data: the running value starts at 0. */
  function GlobalEntropy(data: seq<byte>, log2: real -> real): real
  {
    Accumulate(DistributionOf(data), log2, 0, 0.0)
  }

  /** The entropy of one window: the negated sum of its terms, over its own comprehension table. */
  function ChunkEntropy(chunk: seq<byte>, log2: real -> real): real
  {
    -Total(Terms(Probabilities(ChunkTable(chunk), |chunk|), log2), 0)
  }

  /** Subtracting the terms one by one is subtracting their sum. */
  lemma {:induction false} AccumulateIsNegatedTotal(p: Distribution, log2: real -> real, lo: nat, entropy: real)
    ensures Accumulate(p, log2, lo, entropy) == entropy - Total(Terms(p, log2), lo)
    decreases 256 - lo
  {
    if lo < 256 {
      var next := if lo in p then entropy - p[lo] * log2(p[lo]) else entropy;
      AccumulateIsNegatedTotal(p, log2, lo + 1, next);
    }
  }

  /** The whole-file formula and the per-window formula agree on the same bytes. */
  lemma ChunkEntropyIsGlobalEntropy(data: seq<byte>, log2: real -> real)
    ensures ChunkEntropy(data, log2) == GlobalEntropy(data, log2)
  {
    ChunkTableIsTally(data);
    AccumulateIsNegatedTotal(DistributionOf(data), log2, 0, 0.0);
  }

  /** Empty data has an empty table, so nothing is divided and the entropy stays 0. */
  lemma EntropyOfEmpty(log2: real -> real)
    ensures GlobalEntropy([], log2) == 0.0
    ensures ChunkEntropy([], log2) == 0.0
  {
    DistributionOfEmpty();
    AccumulateIsNegatedTotal(map[], log2, 0, 0.0);
    assert Terms(map[], log2) == map[];
    TotalEmpty(0);
    ChunkEntropyIsGlobalEntropy([], log2);
  }

  /** Data made of one repeated byte value has entropy `-1 * log2(1)`, which is 0. */
  lemma EntropyOfRepeated(data: seq<byte>, x: byte, log2: real -> real)
    requires |data| > 0
    requires forall i :: 0 <= i < |data| ==> data[i] == x
    requires log2(1.0) == 0.0
    ensures GlobalEntropy(data, log2) == 0.0
  {
    DistributionOfRepeated(data, x);
    AccumulateIsNegatedTotal(map[x := 1.0], log2, 0, 0.0);
    assert Terms(map[x := 1.0], log2) == map[x := 1.0 * log2(1.0)];
    TotalSingleton(x, 1.0 * log2(1.0), 0);
  }

  /**
   Data in which every byte value occurs equally often has entropy
   `-log2(1/256)`, which is 8 bits once `log2` is the true logarithm.
   */
  lemma EntropyOfUniform(data: seq<byte>, k: nat, log2: real -> real)
    requires k > 0
    requires forall b: byte :: Occurrences(data, b) == k
    ensures GlobalEntropy(data, log2) == -log2(1.0 / 256.0)
  {
    DistributionOfUniform(data, k);
    AccumulateOfUniform(DistributionOf(data), log2);
  }

  /** The running subtraction over a distribution putting 1/256 on every byte value. */
  lemma AccumulateOfUniform(p: Distribution, log2: real -> real)
    requires forall b: byte :: b in p && p[b] == 1.0 / 256.0
    ensures Accumulate(p, log2, 0, 0.0) == -log2(1.0 / 256.0)
  {
    var l := log2(1.0 / 256.0);
    var c := (1.0 / 256.0) * l;
    var m := Terms(p, log2);
    forall b: byte
      ensures b in m && m[b] == c
    {
    }
    TotalConstant(m, c, 0);
    AccumulateIsNegatedTotal(p, log2, 0, 0.0);
    ScaleBack(l);
  }

  lemma ScaleBack(l: real)
    ensures 0.0 - 256.0 * ((1.0 / 256.0) * l) == -l
  {
  }

  /** When `log2` is non-positive on (0, 1], the entropy is non-negative. */
  lemma EntropyNonNegative(data: seq<byte>, log2: real -> real)
    requires forall x: real :: 0.0 < x <= 1.0 ==> log2(x) <= 0.0
    ensures GlobalEntropy(data, log2) >= 0.0
  {
    ProbabilitiesInUnitInterval(data);
    AccumulateNonNegative(DistributionOf(data), log2);
  }

  lemma AccumulateNonNegative(p: Distribution, log2: real -> real)
    requires forall b :: b in p ==> 0.0 < p[b] <= 1.0
    requires forall x: real :: 0.0 < x <= 1.0 ==> log2(x) <= 0.0
    ensures Accumulate(p, log2, 0, 0.0) >= 0.0
  {
    var m := Terms(p, log2);
    forall b | b in m
      ensures m[b] <= 0.0
    {
      ProductNonPositive(p[b], log2(p[b]));
    }
    TotalNonPositive(m, 0);
    AccumulateIsNegatedTotal(p, log2, 0, 0.0);
  }

  lemma ProductNonPositive(a: real, b: real)
    requires a > 0.0 && b <= 0.0
    ensures a * b <= 0.0
  {
  }
}
