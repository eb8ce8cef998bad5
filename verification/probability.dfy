/**
 Turning a frequency table into probabilities, `freq / total_bytes` per entry,
 computed in exact rational arithmetic.
 */
module Probability {
  import opened Frequency

  /** Byte value to probability; absent byte values have probability 0. */
  type Distribution = map<byte, real>

  /**
   Divides each count of `t` by `total`. The division only happens for
   entries that exist, so an empty table over empty data divides nothing.
   */
  function Probabilities(t: Table, total: nat): (p: Distribution)
    requires total == 0 ==> t == map[]
    ensures p.Keys == t.Keys
    ensures forall b :: b in p ==> p[b] * total as real == t[b] as real
  {
    map b | b in t :: t[b] as real / total as real
  }

  /** The probabilities of the byte values of `data`. */
  function DistributionOf(data: seq<byte>): Distribution
  {
    Probabilities(Tally(data), |data|)
  }

  /** `p[b]`, or 0 for an absent byte value. */
  function Weight(p: Distribution, b: byte): real
  {
    if b in p then p[b] else 0.0
  }

  /** The sum of the values of `m` for byte values `lo` through 255. */
  function Total(m: map<byte, real>, lo: nat): real
    decreases 256 - lo
  {
    if lo >= 256 then 0.0 else Weight(m, lo) + Total(m, lo + 1)
  }

  /** A table's counts as reals, so that they can be summed by `Total`. */
  function Counts(t: Table): (m: map<byte, real>)
    ensures m.Keys == t.Keys
    ensures forall b :: b in m ==> m[b] == t[b] as real
  {
    map b | b in t :: t[b] as real
  }

  /** `CountTotal` is `Total` on the counts: there is one fold over the byte values, read in two number types. */
  lemma {:induction false} CountTotalIsTotal(t: Table, lo: nat)
    ensures CountTotal(t, lo) as real == Total(Counts(t), lo)
    decreases 256 - lo
  {
    if lo < 256 {
      CountTotalIsTotal(t, lo + 1);
      assert Weight(Counts(t), lo) == Get(t, lo) as real;
    }
  }

  /** An empty map totals 0. */
  lemma TotalEmpty(lo: nat)
    ensures Total(map[], lo) == 0.0
  {
    CountTotalEmpty(lo);
    CountTotalIsTotal(map[], lo);
    assert Counts(map[]) == map[];
  }

  /** A one-entry map totals its one value, once the running sum reaches its key. */
  lemma {:induction false} TotalSingleton(x: byte, v: real, lo: nat)
    ensures Total(map[x := v], lo) == (if lo <= x then v else 0.0)
    decreases 256 - lo
  {
    if lo < 256 {
      TotalSingleton(x, v, lo + 1);
    }
  }

  /** A map holding the same value `c` at every byte value totals `c` once per key. */
  lemma {:induction false} TotalConstant(m: map<byte, real>, c: real, lo: nat)
    requires forall b: byte :: b in m && m[b] == c
    requires lo <= 256
    ensures Total(m, lo) == (256 - lo) as real * c
    decreases 256 - lo
  {
    if lo < 256 {
      TotalConstant(m, c, lo + 1);
    }
  }

  /** A map with no positive value has no positive total. */
  lemma {:induction false} TotalNonPositive(m: map<byte, real>, lo: nat)
    requires forall b :: b in m ==> m[b] <= 0.0
    ensures Total(m, lo) <= 0.0
    decreases 256 - lo
  {
    if lo < 256 {
      TotalNonPositive(m, lo + 1);
    }
  }

  /** Dividing every count by `total` divides their sum by `total`. */
  lemma {:induction false} TotalOfProbabilities(t: Table, total: nat, lo: nat)
    requires total > 0
    ensures Total(Probabilities(t, total), lo) == CountTotal(t, lo) as real / total as real
    decreases 256 - lo
  {
    if lo < 256 {
      TotalOfProbabilities(t, total, lo + 1);
      var p := Probabilities(t, total);
      var w, rest := Get(t, lo) as real, CountTotal(t, lo + 1) as real;
      assert Weight(p, lo) == w / total as real;
      SumOfQuotients(w, rest, total as real);
    }
  }

  lemma SumOfQuotients(a: real, b: real, n: real)
    requires n > 0.0
    ensures a / n + b / n == (a + b) / n
  {
  }

  lemma QuotientInUnitInterval(c: nat, n: nat)
    requires 1 <= c <= n
    ensures 0.0 < c as real / n as real <= 1.0
  {
  }

  lemma QuotientOfSelf(n: nat)
    requires n > 0
    ensures n as real / n as real == 1.0
  {
  }

  lemma QuotientOfMultiple(k: nat)
    requires k > 0
    ensures k as real / (256 * k) as real == 1.0 / 256.0
  {
  }

  /** Every probability of a byte value that occurs lies in (0, 1]. */
  lemma ProbabilitiesInUnitInterval(data: seq<byte>)
    ensures forall b :: b in DistributionOf(data) ==> 0.0 < DistributionOf(data)[b] <= 1.0
  {
    var t, p := Tally(data), DistributionOf(data);
    forall b | b in p
      ensures 0.0 < p[b] <= 1.0
    {
      OccurrencesAtMost(data, b);
      assert p[b] == t[b] as real / |data| as real;
      QuotientInUnitInterval(t[b], |data|);
    }
  }

  /** For non-empty data the probabilities sum to exactly 1. */
  lemma ProbabilitiesSumToOne(data: seq<byte>)
    requires |data| > 0
    ensures Total(DistributionOf(data), 0) == 1.0
  {
    var n := |data|;
    TallyTotal(data);
    TotalOfProbabilities(Tally(data), n, 0);
    QuotientOfSelf(n);
  }

  /** Empty data gives the empty distribution. */
  lemma DistributionOfEmpty()
    ensures DistributionOf([]) == map[]
  {
  }

  /** Data made of one repeated byte value puts probability 1 on that value. */
  lemma DistributionOfRepeated(data: seq<byte>, x: byte)
    requires |data| > 0
    requires forall i :: 0 <= i < |data| ==> data[i] == x
    ensures DistributionOf(data) == map[x := 1.0]
  {
    TallyOfRepeated(data, x);
    ProbabilitiesOfSingleton(x, |data|);
  }

  lemma ProbabilitiesOfSingleton(x: byte, n: nat)
    requires n > 0
    ensures Probabilities(map[x := n], n) == map[x := 1.0]
  {
    var p := Probabilities(map[x := n], n);
    assert p.Keys == {x};
    assert p[x] == n as real / n as real == 1.0;
  }

  /** Data in which every byte value occurs `k` times is `256 * k` bytes long. */
  lemma UniformLength(data: seq<byte>, k: nat)
    requires k > 0
    requires forall b: byte :: Occurrences(data, b) == k
    ensures |data| == 256 * k
  {
    DistributionOfUniform(data, k);
  }

  /** Data in which every byte value occurs `k` times puts probability 1/256 on each. */
  lemma DistributionOfUniform(data: seq<byte>, k: nat)
    requires k > 0
    requires forall b: byte :: Occurrences(data, b) == k
    ensures |data| == 256 * k
    ensures forall b: byte :: b in DistributionOf(data) && DistributionOf(data)[b] == 1.0 / 256.0
  {
    var t := Tally(data);
    forall b: byte
      ensures b in t && t[b] == k
    {
      UniformKeys(data, k, b);
    }
    CountTotalConstant(t, k, 0);
    TallyTotal(data);
    var p := DistributionOf(data);
    forall b: byte
      ensures b in p && p[b] == 1.0 / 256.0
    {
      assert p[b] == k as real / (256 * k) as real;
      QuotientOfMultiple(k);
    }
  }

  /** A byte value that occurs at least once is a key of the table. */
  lemma UniformKeys(data: seq<byte>, k: nat, b: byte)
    requires k > 0
    requires Occurrences(data, b) == k
    ensures b in Tally(data) && Tally(data)[b] == k
  {
    assert b in multiset(data);
  }

  /** A table holding `k` for every byte value totals `k` once per key. */
  lemma CountTotalConstant(t: Table, k: nat, lo: nat)
    requires forall b: byte :: b in t && t[b] == k
    requires lo <= 256
    ensures CountTotal(t, lo) == (256 - lo) * k
  {
    TotalConstant(Counts(t), k as real, lo);
    CountTotalIsTotal(t, lo);
    assert ((256 - lo) * k) as real == (256 - lo) as real * k as real;
  }
}
