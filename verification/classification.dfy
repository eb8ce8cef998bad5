/**
 The qualitative verdict shown next to the entropy: a first-match ladder over
 the thresholds 3.0, 5.0, 7.0 and 7.99, checked lowest first.
 */
module Classification {

  /** The five buckets, in order of increasing entropy. */
  datatype Strength = VeryLow | Low | Moderate | High | Maximum

  /** Position of a bucket in the order of increasing entropy. */
  function Rank(s: Strength): nat
  {
    match s
    case VeryLow => 0
    case Low => 1
    case Moderate => 2
    case High => 3
    case Maximum => 4
  }

  /** The smallest entropy in each bucket but the first. */
  function LowerBound(s: Strength): real
    requires s != VeryLow
  {
    match s
    case Low => 3.0
    case Moderate => 5.0
    case High => 7.0
    case Maximum => 7.99
  }

  /** The next bucket up. */
  function Next(s: Strength): Strength
    requires s != Maximum
  {
    match s
    case VeryLow => Low
    case Low => Moderate
    case Moderate => High
    case High => Maximum
  }

  /**
   The ladder `if e < 3.0 ... elif e < 5.0 ... elif e < 7.0 ... elif e < 7.99 ... else`.
   It is total, and its result is the one bucket whose half-open range
   `[LowerBound(s), LowerBound(Next(s)))` holds `entropy`.
   */
  function Classify(entropy: real): (s: Strength)
    ensures s != VeryLow ==> LowerBound(s) <= entropy
    ensures s != Maximum ==> entropy < LowerBound(Next(s))
  {
    if entropy < 3.0 then VeryLow
    else if entropy < 5.0 then Low
    else if entropy < 7.0 then Moderate
    else if entropy < 7.99 then High
    else Maximum
  }

  /** The text the tool shows for each bucket. */
  function Message(s: Strength): string
  {
    match s
    case VeryLow => "Very Low Entropy - Likely plain or structured data."
    case Low => "Low Entropy - Possibly compressed or lightly obfuscated."
    case Moderate => "Moderate Entropy - Possibly partially encrypted or compressed."
    case High => "High Entropy - Likely encrypted or well-compressed data."
    case Maximum => "Maximum Entropy - Strongly resembles encrypted or truly random data."
  }

  /** `get_entropy_strength_message`: the text of the bucket `entropy` falls in. */
  function StrengthMessage(entropy: real): string
  {
    Message(Classify(entropy))
  }

  /** A bucket is the only one whose range holds the value: the ranges do not overlap. */
  lemma ClassifyUnique(entropy: real, s: Strength)
    requires s != VeryLow ==> LowerBound(s) <= entropy
    requires s != Maximum ==> entropy < LowerBound(Next(s))
    ensures Classify(entropy) == s
  {
  }

  /** A larger entropy never lands in a lower bucket. */
  lemma ClassifyMonotone(e1: real, e2: real)
    requires e1 <= e2
    ensures Rank(Classify(e1)) <= Rank(Classify(e2))
  {
  }

  /** The boundary values belong to the bucket above them. */
  lemma ClassifyBoundaries()
    ensures Classify(2.999999) == VeryLow
    ensures Classify(3.0) == Low
    ensures Classify(5.0) == Moderate
    ensures Classify(7.0) == High
    ensures Classify(7.99) == Maximum
  {
  }

  /** Every message the classifier produces is one of the five texts. */
  lemma StrengthMessageIsOneOfFive(entropy: real)
    ensures StrengthMessage(entropy) in
      {Message(VeryLow), Message(Low), Message(Moderate), Message(High), Message(Maximum)}
  {
  }
}
