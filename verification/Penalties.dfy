/** What the penalties of random selection mean for what is spent
    (core/coinchooser.rs). */
module Penalties {
  import opened Common
  import opened Lists
  import opened CoinChooser
  import Rnd = RandomSelect

  /** What some buckets bring beyond the payment; the penalties leave the fee out. */
  function Beyond(c: seq<Rnd.Bucket>, target: nat): nat
  {
    MinusAtZero(Total(c, Rnd.BucketValue), target)
  }

  /** Whole units in an amount. */
  function Units(amount: nat, unit: nat): nat
    requires unit > 0
  {
    amount / unit
  }

  /** How bad a choice is: one for every key but the first; and if what is left
      exceeds three halves of the payment, its excess in units of that bound and
      10000 satoshis, and one for every 500000000 satoshis left. */
  function Badness(keys: nat, left: nat, target: nat): nat
  {
    var bound := target * 3 / 2;
    MinusAtZero(keys, 1) + if left > bound then Units(left - bound, bound + 10_000) + Units(left, 500_000_000) else 0
  }

  /** The privacy penalty is that number, as far as 64 bits go. */
  lemma PenaltyIsBadness(c: seq<Rnd.Bucket>, target: u64)
    requires |c| <= U64_MAX
    ensures Rnd.Penalty(c, target, true) == Rnd.Min(Badness(|c|, Beyond(c, target), target), U64_MAX)
    ensures Rnd.Penalty(c, target, false) == MinusAtZero(|c|, 1)
  {
  }

  lemma QuotientAtMost(a: nat, b: nat, d: nat)
    requires 0 < d <= b
    ensures a / b <= a / d
  {
    var q := a / b;
    assert a >= q * b;
    Larger(q, b, d);
    Fits(a, q, d);
  }

  lemma Larger(q: nat, b: nat, d: nat)
    requires d <= b
    ensures q * d <= q * b
  {
  }

  lemma Fits(a: nat, q: nat, d: nat)
    requires d > 0 && q * d <= a
    ensures q <= a / d
  {
    var p := a / d;
    assert a == p * d + a % d;
    if p < q {
      Larger(d, q, p + 1);
      assert false;
    }
  }

  /** No wallet comes near the saturation. */
  lemma BadnessFits(keys: nat, left: nat, target: nat)
    requires keys < 0x100_0000_0000_0000 && left <= U64_MAX
    ensures Badness(keys, left, target) < U64_MAX
  {
    var bound := target * 3 / 2;
    if left > bound {
      QuotientAtMost(left - bound, bound + 10_000, 10_000);
    }
  }

  lemma PenaltyOfPart(coins: seq<Coin>, target: u64, feeRate: u64, buckets: seq<Rnd.Bucket>, c: seq<Rnd.Bucket>)
    requires Rnd.Grouped(coins, buckets) && Rnd.Candidate(buckets, target, feeRate, c)
    requires |coins| < 0x100_0000_0000_0000 && Value(coins) <= U64_MAX
    ensures |c| <= U64_MAX && Rnd.Penalty(c, target, true) == Badness(|c|, Beyond(c, target), target)
  {
    Rnd.PartTotals(coins, buckets, c);
    Rnd.CandidateLength(buckets, target, feeRate, c);
    Rnd.BucketCount(coins, buckets);
    PenaltyIsBadness(c, target);
    BadnessFits(|c|, Beyond(c, target), target);
  }

  /** A candidate that is no worse than any other, and better than any before it. */
  ghost predicate FirstLeastBad(candidates: seq<seq<Rnd.Bucket>>, target: nat, best: nat)
  {
    && best < |candidates|
    && forall i :: 0 <= i < |candidates| ==>
         && BadnessOf(candidates[best], target) <= BadnessOf(candidates[i], target)
         && (i < best ==> BadnessOf(candidates[best], target) < BadnessOf(candidates[i], target))
  }

  function BadnessOf(c: seq<Rnd.Bucket>, target: nat): nat { Badness(|c|, Beyond(c, target), target) }

  /** Main result: under Privacy the first of the least bad candidates is spent, by
      the number of its keys and by what it leaves, without any saturation. */
  lemma LeastBadWins(coins: seq<Coin>, target: u64, feeRate: u64, r: ChooserResult, t: Rnd.Trace) returns (best: nat)
    requires Rnd.RandomOutcome(coins, target, feeRate, true, r, t) && r.Ok?
    requires |coins| < 0x100_0000_0000_0000 && Value(coins) <= U64_MAX
    ensures FirstLeastBad(t.candidates, target, best)
    ensures r.value.coins == Rnd.AllCoins(t.candidates[best])
    ensures BadnessOf(t.candidates[best], target) == Badness(|t.candidates[best]|, r.value.totalInput - target, target)
  {
    var first: nat :| Rnd.FirstBest(t.candidates, target, true, first) && t.candidates[first] == t.winner;
    best := first;
    FirstBestIsLeastBad(coins, target, feeRate, t, best);
    WinnerBrings(coins, target, feeRate, r, t);
  }

  lemma FirstBestIsLeastBad(coins: seq<Coin>, target: u64, feeRate: u64, t: Rnd.Trace, best: nat)
    requires Rnd.TraceOf(coins, target, feeRate, t) && Rnd.FirstBest(t.candidates, target, true, best)
    requires |coins| < 0x100_0000_0000_0000 && Value(coins) <= U64_MAX
    ensures FirstLeastBad(t.candidates, target, best)
  {
    forall i | 0 <= i < |t.candidates|
      ensures Rnd.Penalty(t.candidates[i], target, true) == BadnessOf(t.candidates[i], target)
    {
      CandidatePenalty(coins, target, feeRate, t, i);
    }
  }

  lemma WinnerBrings(coins: seq<Coin>, target: u64, feeRate: u64, r: ChooserResult, t: Rnd.Trace)
    requires Rnd.RandomOutcome(coins, target, feeRate, true, r, t) && r.Ok?
    ensures r.value.totalInput - target == Beyond(t.winner, target)
  {
    Rnd.WinnerIsCandidate(coins, target, feeRate, true, t);
    Rnd.PartTotals(coins, t.buckets, t.winner);
  }

  lemma CandidatePenalty(coins: seq<Coin>, target: u64, feeRate: u64, t: Rnd.Trace, i: nat)
    requires Rnd.TraceOf(coins, target, feeRate, t) && i < |t.candidates| && |t.candidates[i]| <= U64_MAX
    requires |coins| < 0x100_0000_0000_0000 && Value(coins) <= U64_MAX
    ensures Rnd.Penalty(t.candidates[i], target, true) == BadnessOf(t.candidates[i], target)
  {
    Rnd.TraceCollects(coins, target, feeRate, t);
    assert t.candidates[i] in t.candidates;
    PenaltyOfPart(coins, target, feeRate, t.buckets, t.candidates[i]);
  }

  /** Main result: if one key can pay alone and leaves at most three halves of the
      payment, then a single key is spent; it too leaves at most that, or it
      exceeds the bound by less than the bound and 10000 satoshis and leaves less
      than 500000000 satoshis. */
  lemma ModestKeyKeepsChangeModest(coins: seq<Coin>, target: u64, feeRate: u64, r: ChooserResult, t: Rnd.Trace, key: int)
    requires Rnd.RandomOutcome(coins, target, feeRate, true, r, t)
    requires |coins| < 0x100_0000_0000_0000 && Value(coins) <= U64_MAX
    requires var own := CoinsOf(coins, key);
             own != [] && target + InputFee(own, feeRate) <= Value(own) <= target + target * 3 / 2
    ensures r.Ok? && exists k :: r.value.coins == CoinsOf(coins, k)
    ensures var left, bound := r.value.totalInput - target, target * 3 / 2;
            0 <= left <= bound || (left - bound < bound + 10_000 && left < 500_000_000)
  {
    var b := ModestCandidate(coins, target, feeRate, t, key);
    var best := LeastBadWins(coins, target, feeRate, r, t);
    HarmlessWinner(t.candidates, target, best, [b]);
    ZeroBadness(|t.candidates[best]|, r.value.totalInput - target, target);
    OneKeySpent(coins, target, feeRate, t, t.candidates[best]);
  }

  lemma ModestCandidate(coins: seq<Coin>, target: u64, feeRate: u64, t: Rnd.Trace, key: int) returns (b: Rnd.Bucket)
    requires Rnd.TraceOf(coins, target, feeRate, t)
    requires var own := CoinsOf(coins, key);
             own != [] && target + InputFee(own, feeRate) <= Value(own) <= target + target * 3 / 2
    ensures [b] in t.candidates && Beyond([b], target) <= target * 3 / 2
  {
    b := Rnd.OwnBucket(coins, t.buckets, key);
    Rnd.TraceCollects(coins, target, feeRate, t);
    Rnd.LoneBucketIsCollected(target, feeRate, t, b);
    TotalOfOne(b, Rnd.BucketValue);
  }

  lemma HarmlessWinner(candidates: seq<seq<Rnd.Bucket>>, target: nat, best: nat, c: seq<Rnd.Bucket>)
    requires FirstLeastBad(candidates, target, best) && c in candidates
    requires |c| == 1 && Beyond(c, target) <= target * 3 / 2
    ensures BadnessOf(candidates[best], target) == 0
  {
    var i :| 0 <= i < |candidates| && candidates[i] == c;
  }

  lemma OneKeySpent(coins: seq<Coin>, target: u64, feeRate: u64, t: Rnd.Trace, c: seq<Rnd.Bucket>)
    requires Rnd.TraceOf(coins, target, feeRate, t) && c in t.candidates && |c| <= 1
    ensures exists k :: Rnd.AllCoins(c) == CoinsOf(coins, k)
  {
    Rnd.TraceCollects(coins, target, feeRate, t);
    assert Rnd.Candidate(t.buckets, target, feeRate, c);
    Rnd.LoneBucket(coins, t.buckets, c);
    assert Rnd.AllCoins(c) == CoinsOf(coins, c[0].desc);
  }

  function CoinsOf(coins: seq<Coin>, key: int): seq<Coin> { Rnd.CoinsOfKey(coins, key) }

  lemma ZeroBadness(keys: nat, left: nat, target: nat)
    requires Badness(keys, left, target) == 0
    ensures keys <= 1
    ensures var bound := target * 3 / 2; left <= bound || (left - bound < bound + 10_000 && left < 500_000_000)
  {
    var bound := target * 3 / 2;
    if left > bound && left - bound >= bound + 10_000 {
      Fits(left - bound, 1, bound + 10_000);
    }
  }

  /** Under RandomSubset no candidate has fewer keys than what is spent. */
  lemma FewestKeysWin(coins: seq<Coin>, target: u64, feeRate: u64, r: ChooserResult, t: Rnd.Trace)
    requires Rnd.RandomOutcome(coins, target, feeRate, false, r, t) && r.Ok?
    ensures r.value.coins == Rnd.AllCoins(t.winner) && t.winner in t.candidates
    ensures forall c :: c in t.candidates ==> |t.winner| <= |c|
  {
    Rnd.TraceCollects(coins, target, feeRate, t);
    Rnd.WinnerIsCandidate(coins, target, feeRate, false, t);
    Rnd.WinnerIsIn(target, false, t);
    forall c | c in t.candidates
      ensures |t.winner| <= |c|
    {
      var i :| 0 <= i < |t.candidates| && t.candidates[i] == c;
      PenaltyIsBadness(c, target);
      PenaltyIsBadness(t.winner, target);
    }
  }
}
