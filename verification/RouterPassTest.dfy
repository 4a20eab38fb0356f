/** The 32-bit saturating pass test against the exact ratio test `yea / total >= threshold / 10000`. */
module RouterPassTest {
  import opened Common
  import opened RouterBallot

  /** The largest number of yeas whose product with 10000 fits in 32 bits. */
  const EXACT_YEAS := 429_496

  predicate Accepted(yea: Votes, total: Votes, threshold: u32) {
    PassPercentX100(yea, total) >= threshold
  }

  predicate RatioReached(yea: Votes, total: Votes, threshold: u32) {
    yea * 10_000 >= threshold * total
  }

  lemma MulMonotone(a: int, b: int, d: nat)
    requires a <= b
    ensures a * d <= b * d
  {
  }

  lemma QuotientAtLeast(n: nat, d: nat, t: nat)
    requires d > 0
    ensures n / d >= t <==> n >= t * d
  {
    var q := n / d;
    assert n == q * d + n % d;
    if q >= t {
      MulMonotone(t, q, d);
    } else {
      MulMonotone(q + 1, t, d);
    }
  }

  /** With votes cast, the test compares the saturated product with the exact one. */
  lemma AcceptedMeans(yea: Votes, total: Votes, threshold: u32)
    requires total > 0
    ensures Accepted(yea, total, threshold) <==> SatMul32(yea, 10_000) >= threshold * total
    ensures RatioReached(yea, total, threshold) <==> yea * 10_000 / total >= threshold
  {
    QuotientAtLeast(SatMul32(yea, 10_000), total, threshold);
    QuotientAtLeast(yea * 10_000, total, threshold);
  }

  /** Acceptance is never wrong. */
  lemma AcceptedIsEarned(yea: Votes, total: Votes, threshold: u32)
    requires Accepted(yea, total, threshold)
    ensures RatioReached(yea, total, threshold)
  {
    if total > 0 {
      AcceptedMeans(yea, total, threshold);
    }
  }

  lemma PercentIsAtMost10000(yea: Votes, total: Votes)
    requires yea <= total
    ensures PassPercentX100(yea, total) <= 10_000
    ensures total > 0 ==> yea * 10_000 / total <= 10_000
  {
    if total > 0 {
      assert yea * 10_000 < 10_001 * total;
      QuotientAtLeast(yea * 10_000, total, 10_001);
      QuotientAtLeast(SatMul32(yea, 10_000), total, 10_001);
    }
  }

  /** The saturating test agrees with the exact one for every threshold exactly when the product does not
      saturate, or saturates without moving the quotient. */
  lemma ExactWhen(yea: Votes, total: Votes)
    requires 0 < total && yea <= total
    ensures (forall threshold: u32 :: Accepted(yea, total, threshold) == RatioReached(yea, total, threshold))
       <==> (yea <= EXACT_YEAS || U32_MAX / total == yea * 10_000 / total)
  {
    forall threshold: u32
      ensures Accepted(yea, total, threshold) <==> PassPercentX100(yea, total) >= threshold
      ensures RatioReached(yea, total, threshold) <==> yea * 10_000 / total >= threshold
    {
      AcceptedMeans(yea, total, threshold);
    }
    PercentIsAtMost10000(yea, total);
    var exact: u32 := yea * 10_000 / total;
    assert RatioReached(yea, total, exact);
    var computed: u32 := PassPercentX100(yea, total);
    assert Accepted(yea, total, computed);
    assert yea > EXACT_YEAS ==> computed == U32_MAX / total;
    if forall threshold: u32 :: Accepted(yea, total, threshold) == RatioReached(yea, total, threshold) {
      assert Accepted(yea, total, exact) && RatioReached(yea, total, computed);
    }
  }

  /** The bound is tight: a unanimous vote meets the threshold of 100% exactly up to 429496 yeas. */
  lemma UnanimousPasses(yea: Votes)
    requires yea > 0
    ensures Accepted(yea, yea, 10_000) <==> yea <= EXACT_YEAS
    ensures RatioReached(yea, yea, 10_000)
  {
    AcceptedMeans(yea, yea, 10_000);
  }
}
