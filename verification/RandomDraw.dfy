/** get_rnd_nbr: a draw from a range by rejection, over any generator of numbers up to RAND_MAX. */
module RandomDraw {

  const RAND_MAX := 0x7FFF_FFFF
  const UINT_RANGE := 0x1_0000_0000

  /** rand_r: what it returns for a seed, and the seed it leaves. */
  datatype Generator = Generator(value: nat -> nat, next: nat -> nat)

  ghost predicate IsRand(g: Generator) {
    forall seed: nat :: g.value(seed) <= RAND_MAX
  }

  /** 1 + maxN - minN in unsigned arithmetic */
  function Range(minN: nat, maxN: nat): nat {
    (1 + maxN - minN) % UINT_RANGE
  }

  function Buckets(range: nat): nat
    requires range > 0
  {
    RAND_MAX / range
  }

  function Limit(range: nat): nat
    requires range > 0
  {
    Buckets(range) * range
  }

  /** A raw draw is used only below the largest multiple of the range. */
  predicate Accepted(range: nat, raw: nat)
    requires range > 0
  {
    raw < Limit(range)
  }

  /** The seed after n more draws. */
  function Seed(g: Generator, seed: nat, n: nat): nat
    decreases n
  {
    if n == 0 then seed else Seed(g, g.next(seed), n - 1)
  }

  class RandomSource {
    var seed: nat

    /** first is the number of the first accepted draw, without which the loop does not end. */
    method GetRndNbr(g: Generator, minN: nat, maxN: nat, ghost first: nat) returns (r: nat)
      requires IsRand(g) && minN <= maxN < UINT_RANGE && 1 + maxN - minN <= RAND_MAX
      requires Accepted(Range(minN, maxN), g.value(Seed(g, seed, first)))
      requires forall i: nat :: i < first ==> !Accepted(Range(minN, maxN), g.value(Seed(g, seed, i)))
      modifies this
      ensures minN <= r <= maxN
      ensures r == minN + g.value(Seed(g, old(seed), first)) / Buckets(Range(minN, maxN))
      ensures seed == Seed(g, old(seed), first + 1)
    {
      hide Limit, Buckets, Range;
      RangeIs(minN, maxN);
      var range := Range(minN, maxN);
      var buckets := Buckets(range);
      var limit := Limit(range);
      var rndN;
      rndN, seed := DrawBelow(g, seed, limit, first);
      ValueInRange(range, rndN);
      r := minN + rndN / buckets;
    }

    /** The loop: draws until the limit is not reached. */
    static method DrawBelow(g: Generator, seed: nat, limit: int, ghost first: nat) returns (rndN: nat, thisSeed: nat)
      requires g.value(Seed(g, seed, first)) < limit
      requires forall i: nat :: i < first ==> g.value(Seed(g, seed, i)) >= limit
      ensures rndN == g.value(Seed(g, seed, first)) && thisSeed == Seed(g, seed, first + 1)
    {
      thisSeed := seed;
      rndN := g.value(thisSeed);
      thisSeed := g.next(thisSeed);
      FirstSeeds(g, seed);
      ghost var n := 0;
      while rndN >= limit
        invariant 0 <= n <= first && rndN == g.value(Seed(g, seed, n)) && thisSeed == Seed(g, seed, n + 1)
        decreases first - n
      {
        SeedNext(g, seed, n + 1);
        rndN := g.value(thisSeed);
        thisSeed := g.next(thisSeed);
        n := n + 1;
      }
    }
  }

  lemma RangeIs(minN: nat, maxN: nat)
    requires minN <= maxN < UINT_RANGE && 1 + maxN - minN <= RAND_MAX
    ensures Range(minN, maxN) == 1 + maxN - minN
  {
  }

  lemma FirstSeeds(g: Generator, seed: nat)
    ensures Seed(g, seed, 0) == seed && Seed(g, seed, 1) == g.next(seed)
  {
    assert Seed(g, seed, 1) == Seed(g, g.next(seed), 0);
  }

  lemma {:induction false} SeedNext(g: Generator, seed: nat, n: nat)
    ensures Seed(g, seed, n + 1) == g.next(Seed(g, seed, n))
    decreases n
  {
    if n > 0 {
      SeedNext(g, g.next(seed), n - 1);
    }
  }

  lemma ValueInRange(range: nat, raw: nat)
    requires 0 < range <= RAND_MAX && Accepted(range, raw)
    ensures Buckets(range) > 0 && raw / Buckets(range) < range
  {
    var b := Buckets(range);
    assert b >= 1;
    var q := raw / b;
    assert raw == q * b + raw % b;
    FactorOrder(q, range, b);
  }

  lemma FactorOrder(q: int, r: int, b: int)
    requires b > 0
    ensures q < r <==> q * b < r * b
  {
    if q < r {
      assert (r - q) * b > 0;
    } else {
      assert (q - r) * b >= 0;
    }
  }

  /** Some draw is accepted, so that the loop can end at all, exactly if the range is no larger than RAND_MAX. */
  lemma SomeDrawIsAccepted(range: nat)
    requires range > 0
    ensures (exists raw: nat :: raw <= RAND_MAX && Accepted(range, raw)) <==> range <= RAND_MAX
  {
    if range <= RAND_MAX {
      assert Buckets(range) >= 1;
      assert Buckets(range) * range > 0;
      assert Accepted(range, 0);
    } else {
      assert Buckets(range) == 0;
    }
  }

  /** The raw draws that give one value. */
  ghost function DrawsOf(range: nat, value: nat): set<int>
    requires 0 < range <= RAND_MAX
  {
    set raw: int | 0 <= raw <= RAND_MAX && Accepted(range, raw) && raw / Buckets(range) == value
  }

  ghost function Interval(lo: int, hi: int): set<int>
    decreases hi - lo
  {
    if lo >= hi then {} else Interval(lo, hi - 1) + {hi - 1}
  }

  lemma {:induction false} IntervalSize(lo: int, hi: int)
    requires lo <= hi
    ensures |Interval(lo, hi)| == hi - lo
    ensures forall x :: x in Interval(lo, hi) <==> lo <= x < hi
    decreases hi - lo
  {
    if lo < hi {
      IntervalSize(lo, hi - 1);
    }
  }

  /** The draw is unbiased: each value of the range has the same number of accepted raw draws. */
  lemma Unbiased(range: nat, value: nat)
    requires 0 < range <= RAND_MAX && value < range
    ensures |DrawsOf(range, value)| == Buckets(range) == 0x7FFF_FFFF / range > 0
  {
    hide Buckets;
    var b := Buckets(range);
    BucketsAre(range);
    BucketsFit(range, value);
    IntervalSize(value * b, value * b + b);
    DrawsAre(range, value);
  }

  lemma BucketsAre(range: nat)
    requires range > 0
    ensures Buckets(range) == 0x7FFF_FFFF / range
  {
  }

  lemma BucketsFit(range: nat, value: nat)
    requires 0 < range <= RAND_MAX && value < range
    ensures var b := Buckets(range); b > 0 && 0 <= value * b && value * b + b <= Limit(range) <= RAND_MAX
  {
    Quotient(RAND_MAX, range);
    OneMore(value, range, RAND_MAX / range);
  }

  lemma Quotient(m: nat, n: nat)
    requires 0 < n <= m
    ensures m / n > 0 && (m / n) * n <= m
  {
    assert m == (m / n) * n + m % n;
  }

  lemma OneMore(value: nat, range: nat, b: nat)
    requires value < range
    ensures value * b + b <= b * range
  {
    assert (range - value - 1) * b >= 0;
    assert (range - value - 1) * b == range * b - value * b - b;
  }

  lemma DrawsAre(range: nat, value: nat)
    requires 0 < range <= RAND_MAX && value < range
    ensures var b := Buckets(range); DrawsOf(range, value) == Interval(value * b, value * b + b)
  {
    hide Buckets, Limit;
    var b := Buckets(range);
    var lo := value * b;
    BucketsFit(range, value);
    IntervalSize(lo, lo + b);
    forall raw: int
      ensures raw in DrawsOf(range, value) <==> lo <= raw < lo + b
    {
      if 0 <= raw {
        QuotientIs(raw, b, value);
      }
    }
  }

  lemma QuotientIs(raw: nat, b: nat, value: nat)
    requires b > 0
    ensures raw / b == value <==> value * b <= raw < value * b + b
  {
    var q := raw / b;
    assert raw == q * b + raw % b;
    if q < value {
      assert (q + 1) * b <= value * b;
    } else if q > value {
      assert (value + 1) * b <= q * b;
    }
  }
}
