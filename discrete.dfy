/**
 * The discrete catalogue (python/Distribucion_discretas.py): the bounded
 * normal sampled by rejection, Poisson and negative binomial, their
 * probability and sampling operations, and the factory that builds them
 * from a name and keyword parameters.
 *
 * The uniform draws that `random.random()` returns are passed in; each
 * draw is a real number, normally in [0, 1).
 */
module Discrete {
  import opened Results
  import opened Numerics
  import opened Text
  import ParamCheck

  /** The three distributions; their parameters are fixed when they are built. */
  datatype Distribution =
    | Normal(mu: real, sd: real, a: real)
    | Poisson(l: real)
    | NegativeBinomial(r: int, p: real)

  /**
   * The parameters the model evaluates probabilities and samples for: the
   * normal divides by sd, and r >= 1 keeps every count math.comb receives
   * non-negative. r < 1 is excluded outright, although the source gives a
   * value for some of those counts.
   */
  predicate WellFormed(d: Distribution)
  {
    match d
    case Normal(_, sd, _) => sd != 0.0
    case Poisson(_) => true
    case NegativeBinomial(r, _) => r >= 1
  }

  /** The distributions whose probabilities are point masses on 0, 1, 2, ... */
  predicate Counting(d: Distribution)
  {
    d.Poisson? || d.NegativeBinomial?
  }

  /** Parameters for which every point mass is a non-negative number. */
  predicate MassesNonnegative(d: Distribution)
  {
    match d
    case Normal(_, _, _) => false
    case Poisson(l) => l >= 0.0
    case NegativeBinomial(r, p) => r >= 1 && 0.0 <= p <= 1.0
  }

  // ---------------------------------------------------------------------
  // Probabilities
  // ---------------------------------------------------------------------

  /** getFunctionValue: the standard normal density at z. */
  function StandardDensity(num: Numerics, z: real): (r: real)
    requires num.sqrtTwoPi > 0.0
    ensures Sound(num) ==> 0.0 < r <= 1.0 / num.sqrtTwoPi
  {
    var c, e := 1.0 / num.sqrtTwoPi, num.exp(-0.5 * (z * z));
    assert Sound(num) ==> c * e <= c * 1.0 by {
      if Sound(num) {
        assert e <= num.exp(0.0);
      }
    }
    c * e
  }

  /** The density is positive and never above its value 1/sqrt(2 pi) at 0, so `fu` can always be undercut. */
  lemma StandardDensityPeak(num: Numerics, z: real)
    requires Sound(num)
    ensures 0.0 < StandardDensity(num, z) <= StandardDensity(num, 0.0) == 1.0 / num.sqrtTwoPi
  {
    assert -0.5 * (0.0 * 0.0) == 0.0;
  }

  /**
   * The inner `pmf(val)` of getProbability, for an argument val >= 0. At a
   * whole count k the `int()` calls and the `**` are exact, so the mass is
   * l^k e^-l / k! for Poisson and C(k + r - 1, k) p^r (1 - p)^k for the
   * negative binomial.
   */
  function Mass(d: Distribution, num: Numerics, x: real): (m: real)
    requires Counting(d) && WellFormed(d) && x >= 0.0
    ensures d.Poisson? && IsWhole(x) ==> m == PoissonClosedForm(d.l, num.exp(-d.l), x.Floor)
    ensures d.NegativeBinomial? && IsWhole(x) ==>
              m == (Comb(x.Floor + d.r - 1, x.Floor) as real) * IntPow(d.p, d.r) * IntPow(1.0 - d.p, x.Floor)
  {
    match d
    case Poisson(l) =>
      Power(num, l, x) * num.exp(-l) / Fact(Trunc(x))
    case NegativeBinomial(r, p) =>
      assert IsWhole(x) ==> Trunc(x + r as real - 1.0) == x.Floor + r - 1;
      (Comb(Trunc(x + r as real - 1.0), Trunc(x)) as real) * IntPow(p, r) * Power(num, 1.0 - p, x)
  }

  /** `sum(pmf(i) for i in range(n + 1))`: the masses of 0..n added from 0 upward. */
  function Cumulative(d: Distribution, num: Numerics, n: nat): (c: real)
    requires Counting(d) && WellFormed(d)
    ensures c == SumOfMasses(d, num, 0, n + 1)
  {
    if n == 0 then Mass(d, num, 0.0)
    else
      SumOfMassesSplit(d, num, 0, n);
      Cumulative(d, num, n - 1) + Mass(d, num, n as real)
  }

  /**
   * getProbability(x, acc). The normal always integrates the standard
   * density up to (x - mu) / sd, whatever acc says; the counting
   * distributions give 0 below 0, the point mass, or the sum of the masses
   * of 0..int(x). Only the normal's division and the masses need the
   * parameters to be well formed; the guard below 0 answers for any.
   */
  function GetProbability(d: Distribution, num: Numerics, x: real, acc: bool): (r: real)
    requires (d.Normal? || x >= 0.0) ==> WellFormed(d)
    ensures Counting(d) && x >= 0.0 && acc ==> r == SumOfMasses(d, num, 0, Trunc(x) + 1)
  {
    match d
    case Normal(mu, sd, _) => num.stdNormalCdf((x - mu) / sd)
    case _ =>
      if x < 0.0 then 0.0
      else if !acc then Mass(d, num, x)
      else Cumulative(d, num, Trunc(x))
  }

  /** Below 0 the counting distributions give 0, whatever their parameters and whatever acc says. */
  lemma NegativeArgumentHasNoProbability(d: Distribution, num: Numerics, x: real, acc: bool)
    requires Counting(d) && x < 0.0
    ensures GetProbability(d, num, x, acc) == 0.0
  {
  }

  lemma NormalIgnoresAcc(d: Distribution, num: Numerics, x: real)
    requires d.Normal? && WellFormed(d)
    ensures GetProbability(d, num, x, true) == GetProbability(d, num, x, false)
  {
  }

  /** The masses of lo..hi-1, added from the top down: an independent reading of the sum. */
  function SumOfMasses(d: Distribution, num: Numerics, lo: nat, hi: nat): real
    requires Counting(d) && WellFormed(d) && lo <= hi
    decreases hi - lo
  {
    if lo == hi then 0.0 else Mass(d, num, lo as real) + SumOfMasses(d, num, lo + 1, hi)
  }

  lemma {:induction false} SumOfMassesSplit(d: Distribution, num: Numerics, lo: nat, hi: nat)
    requires Counting(d) && WellFormed(d) && lo <= hi
    ensures SumOfMasses(d, num, lo, hi + 1) == SumOfMasses(d, num, lo, hi) + Mass(d, num, hi as real)
    decreases hi - lo
  {
    if lo < hi {
      SumOfMassesSplit(d, num, lo + 1, hi);
    }
  }

  lemma MassNonnegative(d: Distribution, num: Numerics, k: nat)
    requires Sound(num) && Counting(d) && WellFormed(d) && MassesNonnegative(d)
    ensures Mass(d, num, k as real) >= 0.0
  {
    match d
    case Poisson(l) =>
      IntPowNonnegative(l, k);
    case NegativeBinomial(r, p) =>
      IntPowNonnegative(p, r);
      IntPowNonnegative(1.0 - p, k);
  }

  lemma {:induction false} CumulativeNonnegative(d: Distribution, num: Numerics, n: nat)
    requires Sound(num) && Counting(d) && WellFormed(d) && MassesNonnegative(d)
    ensures Cumulative(d, num, n) >= 0.0
  {
    MassNonnegative(d, num, n);
    if n > 0 {
      CumulativeNonnegative(d, num, n - 1);
    }
  }

  /** The cumulative sums never decrease. */
  lemma {:induction false} CumulativeMonotone(d: Distribution, num: Numerics, j: nat, k: nat)
    requires Sound(num) && Counting(d) && WellFormed(d) && MassesNonnegative(d)
    requires j <= k
    ensures Cumulative(d, num, j) <= Cumulative(d, num, k)
    decreases k - j
  {
    if j < k {
      CumulativeMonotone(d, num, j, k - 1);
      MassNonnegative(d, num, k);
    }
  }

  /** getProbability(x, acc=True) is non-decreasing in x and never negative. */
  lemma CumulativeProbabilityMonotone(d: Distribution, num: Numerics, x: real, y: real)
    requires Sound(num) && Counting(d) && WellFormed(d) && MassesNonnegative(d)
    requires x <= y
    ensures 0.0 <= GetProbability(d, num, x, true) <= GetProbability(d, num, y, true)
  {
    if x >= 0.0 {
      CumulativeNonnegative(d, num, Trunc(x));
      CumulativeMonotone(d, num, Trunc(x), Trunc(y));
    } else if y >= 0.0 {
      CumulativeNonnegative(d, num, Trunc(y));
    }
  }

  /** At a whole number k >= 0 the cumulative probability is at least the point mass. */
  lemma CumulativeAtLeastMass(d: Distribution, num: Numerics, k: nat)
    requires Sound(num) && Counting(d) && WellFormed(d) && MassesNonnegative(d)
    ensures GetProbability(d, num, k as real, true) >= GetProbability(d, num, k as real, false)
  {
    if k > 0 {
      CumulativeNonnegative(d, num, k - 1);
    }
  }

  // ---------------------------------------------------------------------
  // Sampling by scanning the cumulative masses
  // ---------------------------------------------------------------------

  /** k is the least count whose cumulative mass reaches the draw u. */
  ghost predicate IsLeastReaching(d: Distribution, num: Numerics, u: real, k: nat)
    requires Counting(d) && WellFormed(d)
  {
    Cumulative(d, num, k) >= u && forall j :: 0 <= j < k ==> Cumulative(d, num, j) < u
  }

  /** The count a scan stops at has cumulative probability at least the draw. */
  lemma LeastReachingProbability(d: Distribution, num: Numerics, u: real, k: nat)
    requires Counting(d) && WellFormed(d) && IsLeastReaching(d, num, u, k)
    ensures GetProbability(d, num, k as real, true) >= u
  {
    assert Trunc(k as real) == k;
  }

  /**
   * The Poisson scan's running term: e for 0, then each term the previous
   * one times l / k. With e = e^-l it is the mass of k (PoissonTermIsMass).
   */
  function PoissonTerm(l: real, e: real, k: nat): real
  {
    if k == 0 then e else PoissonTerm(l, e, k - 1) * (l / k as real)
  }

  /** l^k e / k!, the closed form getProbability evaluates for the Poisson mass of a whole k. */
  function PoissonClosedForm(l: real, e: real, k: nat): real
  {
    IntPow(l, k) * e / Fact(k)
  }

  lemma ClosedFormStep(l: real, e: real, k: nat)
    requires k >= 1
    ensures PoissonClosedForm(l, e, k) == PoissonClosedForm(l, e, k - 1) * (l / k as real)
  {
    QuotientStep(IntPow(l, k - 1), e, Fact(k - 1), l, k as real);
  }

  /** The recurrence agrees with the closed form. */
  lemma {:induction false} PoissonTermIsClosedForm(l: real, e: real, k: nat)
    ensures PoissonTerm(l, e, k) == PoissonClosedForm(l, e, k)
  {
    if k > 0 {
      PoissonTermIsClosedForm(l, e, k - 1);
      ClosedFormStep(l, e, k);
    }
  }

  /** The scan's running term is the mass getProbability gives. */
  lemma PoissonTermIsMass(d: Distribution, num: Numerics, k: nat)
    requires d.Poisson?
    ensures PoissonTerm(d.l, num.exp(-d.l), k) == Mass(d, num, k as real)
  {
    PoissonTermIsClosedForm(d.l, num.exp(-d.l), k);
    assert IsWhole(k as real) && (k as real).Floor == k;
  }

  /** (a l) e / (k f) == (a e / f) (l / k): one step of the closed form, as plain algebra. */
  lemma QuotientStep(a: real, e: real, f: real, l: real, k: real)
    requires f != 0.0 && k != 0.0
    ensures (a * l) * e / (k * f) == (a * e / f) * (l / k)
  {
    var prev, y := a * e / f, l / k;
    assert prev * f == a * e;
    assert y * k == l;
    assert (prev * y) * (k * f) == (prev * f) * (y * k);
  }

  /** One step of the scan: the next term is the next mass, and adding it extends the cumulative sum. */
  lemma PoissonScanStep(d: Distribution, num: Numerics, k: nat, p: real, f: real, next: real)
    requires d.Poisson? && k >= 1
    requires p == PoissonTerm(d.l, num.exp(-d.l), k - 1) && f == Cumulative(d, num, k - 1)
    requires next == p * (d.l / k as real)
    ensures next == PoissonTerm(d.l, num.exp(-d.l), k)
    ensures f + next == Cumulative(d, num, k)
  {
    PoissonTermIsMass(d, num, k);
  }

  /**
   * One Poisson draw: starting from the mass e^-l of 0, add the next mass
   * (each obtained from the previous one by the recurrence) until the
   * running total reaches u. `bound` is any count whose cumulative mass
   * reaches u; the source relies on the total mass eventually doing so.
   */
  method PoissonScan(d: Distribution, num: Numerics, u: real, ghost bound: nat) returns (k: nat)
    requires d.Poisson? && u <= Cumulative(d, num, bound)
    ensures IsLeastReaching(d, num, u, k)
  {
    k := 0;
    var p := num.exp(-d.l);
    var f := p;
    PoissonTermIsMass(d, num, 0);
    while u > f
      invariant k <= bound
      invariant p == PoissonTerm(d.l, num.exp(-d.l), k)
      invariant f == Cumulative(d, num, k)
      invariant forall j :: 0 <= j < k ==> Cumulative(d, num, j) < u
      decreases bound - k
    {
      var next := p * (d.l / (k + 1) as real);
      PoissonScanStep(d, num, k + 1, p, f, next);
      k, p, f := k + 1, next, f + next;
    }
  }

  /**
   * getSample for Poisson: one scan per draw; each sample is the count the
   * scan stops at, paired with its point mass computed afresh.
   */
  method PoissonGetSample(d: Distribution, num: Numerics, draws: seq<real>, ghost bound: nat)
    returns (sample: seq<real>, pmfValues: seq<real>)
    requires d.Poisson?
    requires forall i :: 0 <= i < |draws| ==> draws[i] <= Cumulative(d, num, bound)
    ensures |sample| == |draws| && |pmfValues| == |draws|
    ensures forall i :: 0 <= i < |draws| ==>
              && IsWhole(sample[i]) && sample[i] >= 0.0
              && IsLeastReaching(d, num, draws[i], sample[i].Floor)
              && pmfValues[i] == GetProbability(d, num, sample[i], false)
  {
    sample, pmfValues := [], [];
    for i := 0 to |draws|
      invariant |sample| == i && |pmfValues| == i
      invariant forall j :: 0 <= j < i ==>
                  && IsWhole(sample[j]) && sample[j] >= 0.0
                  && IsLeastReaching(d, num, draws[j], sample[j].Floor)
                  && pmfValues[j] == GetProbability(d, num, sample[j], false)
    {
      var k := PoissonScan(d, num, draws[i], bound);
      sample := sample + [k as real];
      pmfValues := pmfValues + [GetProbability(d, num, k as real, false)];
    }
  }

  /**
   * One negative-binomial draw: a linear scan over 0, 1, 2, ... adding each
   * point mass until the running total reaches u; returns the count and
   * its mass.
   */
  method NegativeBinomialScan(d: Distribution, num: Numerics, u: real, ghost bound: nat)
    returns (k: nat, currP: real)
    requires d.NegativeBinomial? && WellFormed(d) && u <= Cumulative(d, num, bound)
    ensures IsLeastReaching(d, num, u, k)
    ensures currP == GetProbability(d, num, k as real, false)
  {
    k := 0;
    currP := GetProbability(d, num, 0.0, false);
    var f := currP;
    while u > f
      invariant k <= bound
      invariant currP == Mass(d, num, k as real)
      invariant f == Cumulative(d, num, k)
      invariant forall j :: 0 <= j < k ==> Cumulative(d, num, j) < u
      decreases bound - k
    {
      var next := GetProbability(d, num, (k + 1) as real, false);
      CountingScanStep(d, num, k + 1, f, next);
      k, currP, f := k + 1, next, f + next;
    }
  }

  /** One step of a counting scan: getProbability at the next count is its mass, and adding it extends the cumulative sum. */
  lemma CountingScanStep(d: Distribution, num: Numerics, k: nat, f: real, next: real)
    requires Counting(d) && WellFormed(d) && k >= 1
    requires f == Cumulative(d, num, k - 1) && next == GetProbability(d, num, k as real, false)
    ensures next == Mass(d, num, k as real) && f + next == Cumulative(d, num, k)
  {
  }

  /** getSample for the negative binomial: one scan per draw, each count paired with its mass. */
  method NegativeBinomialGetSample(d: Distribution, num: Numerics, draws: seq<real>, ghost bound: nat)
    returns (sample: seq<real>, pmfValues: seq<real>)
    requires d.NegativeBinomial? && WellFormed(d)
    requires forall i :: 0 <= i < |draws| ==> draws[i] <= Cumulative(d, num, bound)
    ensures |sample| == |draws| && |pmfValues| == |draws|
    ensures forall i :: 0 <= i < |draws| ==>
              && IsWhole(sample[i]) && sample[i] >= 0.0
              && IsLeastReaching(d, num, draws[i], sample[i].Floor)
              && pmfValues[i] == GetProbability(d, num, sample[i], false)
  {
    sample, pmfValues := [], [];
    for i := 0 to |draws|
      invariant |sample| == i && |pmfValues| == i
      invariant forall j :: 0 <= j < i ==>
                  && IsWhole(sample[j]) && sample[j] >= 0.0
                  && IsLeastReaching(d, num, draws[j], sample[j].Floor)
                  && pmfValues[j] == GetProbability(d, num, sample[j], false)
    {
      var k, currP := NegativeBinomialScan(d, num, draws[i], bound);
      sample := sample + [k as real];
      pmfValues := pmfValues + [currP];
    }
  }

  // ---------------------------------------------------------------------
  // Sampling the bounded normal by rejection
  // ---------------------------------------------------------------------

  /** random.uniform(lo, hi) computed from a draw r of random.random(). */
  function Uniform(lo: real, hi: real, r: real): (x: real)
    ensures lo <= hi && 0.0 <= r <= 1.0 ==> lo <= x <= hi
  {
    ScaleWithin(hi - lo, r);
    lo + (hi - lo) * r
  }

  lemma ScaleWithin(w: real, r: real)
    ensures w >= 0.0 && 0.0 <= r <= 1.0 ==> 0.0 <= w * r <= w
  {
    if w >= 0.0 && 0.0 <= r <= 1.0 {
      assert w * r <= w * 1.0;
    }
  }

  /** The proposal u = uniform(mu - a sd, mu + a sd) made from a draw r. */
  function Candidate(d: Distribution, r: real): real
    requires d.Normal?
  {
    Uniform(d.mu - d.a * d.sd, d.mu + d.a * d.sd, r)
  }

  /** The test `fu < fz`: fu = uniform(0, density at 0) from r2, fz the density at the candidate's z. */
  predicate Accepts(d: Distribution, num: Numerics, r1: real, r2: real)
    requires d.Normal? && WellFormed(d) && num.sqrtTwoPi > 0.0
  {
    Uniform(0.0, StandardDensity(num, 0.0), r2) < StandardDensity(num, (Candidate(d, r1) - d.mu) / d.sd)
  }

  /**
   * The candidates accepted from a stream of draws consumed two at a time
   * (u's draw, then fu's), in the order they are accepted; a trailing odd
   * draw is not used.
   */
  function Accepted(d: Distribution, num: Numerics, draws: seq<real>): (accepted: seq<real>)
    requires d.Normal? && WellFormed(d) && num.sqrtTwoPi > 0.0
    ensures 2 * |accepted| <= |draws|
  {
    if |draws| < 2 then []
    else (if Accepts(d, num, draws[0], draws[1]) then [Candidate(d, draws[0])] else [])
         + Accepted(d, num, draws[2..])
  }

  lemma {:induction false} AcceptedAppend(d: Distribution, num: Numerics, s: seq<real>, t: seq<real>)
    requires d.Normal? && WellFormed(d) && num.sqrtTwoPi > 0.0 && |s| % 2 == 0
    ensures Accepted(d, num, s + t) == Accepted(d, num, s) + Accepted(d, num, t)
  {
    if s == [] {
      assert s + t == t;
    } else {
      var head := if Accepts(d, num, s[0], s[1]) then [Candidate(d, s[0])] else [];
      assert (s + t)[0] == s[0] && (s + t)[1] == s[1];
      assert (s + t)[2..] == s[2..] + t;
      AcceptedAppend(d, num, s[2..], t);
      calc {
        Accepted(d, num, s + t);
        head + Accepted(d, num, s[2..] + t);
        head + (Accepted(d, num, s[2..]) + Accepted(d, num, t));
        (head + Accepted(d, num, s[2..])) + Accepted(d, num, t);
        Accepted(d, num, s) + Accepted(d, num, t);
      }
    }
  }

  /** With a >= 0, sd > 0 and draws in [0, 1], every accepted sample lies in [mu - a sd, mu + a sd]. */
  lemma {:induction false} AcceptedInBounds(d: Distribution, num: Numerics, draws: seq<real>)
    requires d.Normal? && WellFormed(d) && num.sqrtTwoPi > 0.0 && d.a >= 0.0 && d.sd > 0.0
    requires forall i :: 0 <= i < |draws| ==> 0.0 <= draws[i] <= 1.0
    ensures forall x :: x in Accepted(d, num, draws) ==> d.mu - d.a * d.sd <= x <= d.mu + d.a * d.sd
  {
    if |draws| >= 2 {
      assert d.a * d.sd >= 0.0;
      AcceptedInBounds(d, num, draws[2..]);
    }
  }

  /**
   * What getSample returns is a prefix of the accepted candidates, so with
   * a >= 0, sd > 0 and draws in [0, 1] every sample lies in [mu - a sd, mu + a sd].
   */
  lemma SampleInBounds(d: Distribution, num: Numerics, draws: seq<real>, sample: seq<real>)
    requires d.Normal? && WellFormed(d) && num.sqrtTwoPi > 0.0 && d.a >= 0.0 && d.sd > 0.0
    requires forall i :: 0 <= i < |draws| ==> 0.0 <= draws[i] <= 1.0
    requires sample <= Accepted(d, num, draws)
    ensures forall i :: 0 <= i < |sample| ==> d.mu - d.a * d.sd <= sample[i] <= d.mu + d.a * d.sd
  {
    var accepted := Accepted(d, num, draws);
    AcceptedInBounds(d, num, draws);
    forall i | 0 <= i < |sample|
      ensures d.mu - d.a * d.sd <= sample[i] <= d.mu + d.a * d.sd
    {
      assert sample[i] == accepted[i] && accepted[i] in accepted;
    }
  }

  /** Consuming one more pair of draws adds that pair's candidate exactly when the pair is accepted. */
  lemma AcceptedStep(d: Distribution, num: Numerics, draws: seq<real>, pos: nat)
    requires d.Normal? && WellFormed(d) && num.sqrtTwoPi > 0.0
    requires pos % 2 == 0 && pos + 2 <= |draws|
    ensures Accepted(d, num, draws[..pos + 2]) == Accepted(d, num, draws[..pos])
              + (if Accepts(d, num, draws[pos], draws[pos + 1]) then [Candidate(d, draws[pos])] else [])
  {
    var pair := draws[pos..pos + 2];
    AcceptedAppend(d, num, draws[..pos], pair);
    assert draws[..pos] + pair == draws[..pos + 2];
    assert pair[0] == draws[pos] && pair[1] == draws[pos + 1] && pair[2..] == [];
  }

  /** Once fewer than two draws remain, the accepted candidates are all those of the whole stream. */
  lemma AcceptedRest(d: Distribution, num: Numerics, draws: seq<real>, pos: nat)
    requires d.Normal? && WellFormed(d) && num.sqrtTwoPi > 0.0
    requires pos % 2 == 0 && pos <= |draws|
    ensures |draws| < pos + 2 ==> Accepted(d, num, draws) == Accepted(d, num, draws[..pos])
    ensures Accepted(d, num, draws[..pos]) <= Accepted(d, num, draws)
  {
    AcceptedAppend(d, num, draws[..pos], draws[pos..]);
    assert draws[..pos] + draws[pos..] == draws;
  }

  /**
   * One round of getSample's `while True` loop on the draws r1 and r2:
   * u = uniform(mu - a sd, mu + a sd), fu = uniform(0, max_pdf),
   * z = (u - mu) / sd, fz = the standard density at z, accepted when fu < fz.
   */
  function Attempt(d: Distribution, num: Numerics, r1: real, r2: real): (res: (bool, real, real))
    requires d.Normal? && WellFormed(d) && num.sqrtTwoPi > 0.0
    ensures res.0 == Accepts(d, num, r1, r2)
    ensures res.1 == Candidate(d, r1)
    ensures res.2 == StandardDensity(num, (res.1 - d.mu) / d.sd)
  {
    var maxPdf := StandardDensity(num, 0.0);
    var u := Candidate(d, r1);
    var fu := Uniform(0.0, maxPdf, r2);
    var fz := StandardDensity(num, (u - d.mu) / d.sd);
    (fu < fz, u, fz)
  }

  /**
   * The `while True` loop of getSample: pairs of draws from position pos on
   * are tried until one is accepted. `found` is false when fewer than two
   * draws remain first; then every candidate the stream holds has already
   * been accepted before pos.
   */
  method NextAccepted(d: Distribution, num: Numerics, draws: seq<real>, pos: nat)
    returns (found: bool, u: real, fz: real, next: nat)
    requires d.Normal? && WellFormed(d) && num.sqrtTwoPi > 0.0
    requires pos <= |draws| && pos % 2 == 0
    ensures pos <= next <= |draws| && next % 2 == 0
    ensures found ==> Accepted(d, num, draws[..next]) == Accepted(d, num, draws[..pos]) + [u]
    ensures found ==> fz == StandardDensity(num, (u - d.mu) / d.sd)
    ensures !found ==> Accepted(d, num, draws) == Accepted(d, num, draws[..pos])
  {
    next := pos;
    while next + 2 <= |draws|
      invariant pos <= next <= |draws| && next % 2 == 0
      invariant Accepted(d, num, draws[..next]) == Accepted(d, num, draws[..pos])
      decreases |draws| - next
    {
      var (accepted, candidate, density) := Attempt(d, num, draws[next], draws[next + 1]);
      u, fz := candidate, density;
      AcceptedStep(d, num, draws, next);
      next := next + 2;
      if accepted {
        found := true;
        return;
      }
    }
    AcceptedRest(d, num, draws, next);
    found, u, fz := false, 0.0, 0.0;
  }

  /**
   * getSample for the bounded normal. For each of the n samples, draws are
   * taken in pairs until one pair is accepted; the sample is the candidate
   * and its companion value the standard density at its z divided by sd.
   * The source draws without end; here the stream is finite, and `ok` is
   * false when it runs out before n samples are accepted.
   */
  method NormalGetSample(d: Distribution, num: Numerics, n: nat, draws: seq<real>)
    returns (ok: bool, sample: seq<real>, pdfValues: seq<real>)
    requires d.Normal? && WellFormed(d) && num.sqrtTwoPi > 0.0
    ensures |pdfValues| == |sample| <= n
    ensures ok ==> |sample| == n && sample <= Accepted(d, num, draws)
    ensures !ok ==> sample == Accepted(d, num, draws)
    ensures forall i :: 0 <= i < |sample| ==> pdfValues[i] == StandardDensity(num, (sample[i] - d.mu) / d.sd) / d.sd
  {
    sample, pdfValues := [], [];
    var pos := 0;
    for i := 0 to n
      invariant pos <= |draws| && pos % 2 == 0
      invariant |sample| == i && |pdfValues| == i
      invariant sample == Accepted(d, num, draws[..pos])
      invariant forall j :: 0 <= j < i ==> pdfValues[j] == StandardDensity(num, (sample[j] - d.mu) / d.sd) / d.sd
    {
      var found, u, fz, next := NextAccepted(d, num, draws, pos);
      if !found {
        ok := false;
        return;
      }
      pos := next;
      sample := sample + [u];
      pdfValues := pdfValues + [fz / d.sd];
    }
    ok := true;
    AcceptedRest(d, num, draws, pos);
  }

  // ---------------------------------------------------------------------
  // The factory
  // ---------------------------------------------------------------------

  /** Why `create` refuses a request; each carries the name or the key its message quotes. */
  datatype FactoryError = Unsupported(name: string) | MissingParameter(key: string)

  /** The ValueError message raised for each error; it quotes the name or the key. */
  function Message(e: FactoryError): (msg: string)
    ensures e.Unsupported? ==> Quotes(msg, e.name, 14)
    ensures e.MissingParameter? ==> Quotes(msg, e.key, 21)
  {
    match e
    case Unsupported(name) => "Distribucion '" + name + "' no soportada"
    case MissingParameter(key) => "Error: El parametro '" + key + "' es obligatorio"
  }

  /** create's normalisation of the requested name: lower case, then every space an underscore. */
  function Normalize(name: string): (kind: string)
    ensures |kind| == |name| && ' ' !in kind
  {
    ReplaceSpaces(Lower(name))
  }

  /** The normalised names create recognises. */
  predicate Supported(kind: string)
  {
    kind == "normal" || kind == "poisson" || kind == "binomial_negativa"
  }

  /** The keys each recognised name demands, in the order they are checked. */
  function Required(kind: string): seq<string>
    requires Supported(kind)
  {
    if kind == "normal" then ["mu", "sd"]
    else if kind == "poisson" then ["l"]
    else ["r", "p"]
  }

  /**
   * create(name, **params): normalise the name, check the keys it needs in
   * order, and build the distribution from exactly those keys. The normal
   * is never given `a`, so it keeps the default 10; r is truncated by int().
   */
  function Create(name: string, params: map<string, real>): (res: Result<Distribution, FactoryError>)
    ensures !Supported(Normalize(name)) ==> res == Failure(Unsupported(name))
    ensures Supported(Normalize(name)) ==>
              var req := Required(Normalize(name));
              var i := ParamCheck.FirstMissing(req, params.Keys);
              (res.Success? <==> i == |req|) && (res.Failure? ==> res.error == MissingParameter(req[i]))
    ensures res.Success? ==> BuiltFrom(Normalize(name), params, res.value)
  {
    var kind := Normalize(name);
    if !Supported(kind) then Failure(Unsupported(name))
    else
      var req := Required(kind);
      var i := ParamCheck.FirstMissing(req, params.Keys);
      if i < |req| then Failure(MissingParameter(req[i]))
      else if kind == "normal" then Success(Normal(params["mu"], params["sd"], 10.0))
      else if kind == "poisson" then Success(Poisson(params["l"]))
      else Success(NegativeBinomial(Trunc(params["r"]), params["p"]))
  }

  /** The distribution a recognised name builds from its required keys. */
  predicate BuiltFrom(kind: string, params: map<string, real>, d: Distribution)
  {
    match d
    case Normal(mu, sd, a) =>
      kind == "normal" && "mu" in params && "sd" in params && mu == params["mu"] && sd == params["sd"] && a == 10.0
    case Poisson(l) => kind == "poisson" && "l" in params && l == params["l"]
    case NegativeBinomial(r, p) =>
      kind == "binomial_negativa" && "r" in params && "p" in params && r == Trunc(params["r"]) && p == params["p"]
  }

  /** The kind of distribution built names the normal form of the request. */
  lemma CreatedKind(name: string, params: map<string, real>)
    requires Create(name, params).Success?
    ensures Create(name, params).value.Normal? ==> Normalize(name) == "normal"
    ensures Create(name, params).value.Poisson? ==> Normalize(name) == "poisson"
    ensures Create(name, params).value.NegativeBinomial? ==> Normalize(name) == "binomial_negativa"
  {
  }

  /** The keys are checked in order: without mu the normal fails on mu, whether or not sd is given. */
  lemma NormalMissingMu(params: map<string, real>)
    requires "mu" !in params
    ensures Create("normal", params) == Failure(MissingParameter("mu"))
  {
    assert Normalize("normal") == "normal";
    assert ParamCheck.FirstMissing(["mu", "sd"], params.Keys) == 0;
  }

  /** An unknown name fails with the name as given, before any key is looked at. */
  lemma UnknownNameRejected()
    ensures Create("beta", map[]) == Failure(Unsupported("beta"))
  {
    assert Normalize("beta") == "beta";
  }

  /** A name whose characters lower-case and lose their spaces onto a word, position by position, normalises to that word. */
  lemma NormalizesTo(name: string, word: string)
    requires |name| == |word|
    requires forall i :: 0 <= i < |name| ==>
               (if LowerChar(name[i]) == ' ' then '_' else LowerChar(name[i])) == word[i]
    ensures Normalize(name) == word
  {
  }

  /** "Binomial Negativa", as a person would type it, selects the negative binomial. */
  lemma SpacedCapitalisedName(r: real, p: real)
    ensures Create("Binomial Negativa", map["r" := r, "p" := p]) == Success(NegativeBinomial(Trunc(r), p))
  {
    NegativeBinomialSpelling();
    NegativeBinomialFromKeys("Binomial Negativa", r, p);
  }

  /** Any name that normalises to binomial_negativa, given r and p, builds the negative binomial with r truncated. */
  lemma NegativeBinomialFromKeys(name: string, r: real, p: real)
    requires Normalize(name) == "binomial_negativa"
    ensures Create(name, map["r" := r, "p" := p]) == Success(NegativeBinomial(Trunc(r), p))
  {
    var params := map["r" := r, "p" := p];
    assert ParamCheck.FirstMissing(["r", "p"], params.Keys) == 2;
  }

  /** Lower-casing and replacing the space turn "Binomial Negativa" into the recognised name. */
  lemma NegativeBinomialSpelling()
    ensures Normalize("Binomial Negativa") == "binomial_negativa"
  {
    NormalizesTo("Binomial Negativa", "binomial_negativa");
  }

  /** Keys other than the required ones (`a` among them) change nothing. */
  lemma CreateIgnoresOtherKeys(name: string, p1: map<string, real>, p2: map<string, real>)
    requires Supported(Normalize(name))
    requires forall key :: key in Required(Normalize(name)) ==>
               (key in p1 <==> key in p2) && (key in p1 ==> p1[key] == p2[key])
    ensures Create(name, p1) == Create(name, p2)
  {
    var req := Required(Normalize(name));
    ParamCheck.FirstMissingIgnoresOtherKeys(req, p1.Keys, p2.Keys);
  }
}
