# Probability distributions: factories, routing and sampling scans

This project models the exact decision logic of a small web service that
evaluates and samples probability distributions:

- the **discrete catalogue** (`python/Distribucion_discretas.py`):
  - a normal distribution bounded to `[mu - a sd, mu + a sd]` and sampled
    by acceptance-rejection;
  - Poisson and negative binomial, with their point masses, cumulative sums
    and inverse-CDF sampling scans;
  - `DistributionFactory`, which lower-cases a name and turns its spaces
    into underscores, checks the required keyword parameters in order, and
    builds a distribution or raises a `ValueError`;
- the **continuous catalogue** (`python/Distribucion_continuas.py`):
  - Gamma, Exponential and Normal, with their support guards, the
    exponential inverse-transform sampler, and the sample/density pairing
    of the generator-based samplers;
  - `ContinuousDistributionFactory`, which lower-cases and strips the name,
    checks keys in order, and falls back from `l` to `lambda_val` for the
    exponential rate;
- the **request layer** of `main.py`:
  - `get_distribution_instance`, which sends a name to one of the two
    factories and, for `normal`, decides by the presence of `mu`;
  - the filtering that turns a request body into factory parameters;
  - the defaults for `cardinality` and `acc`.

Layout:
- `results.dfy`: `Option` and `Result`.
- `numerics.dfy`:
  - the floating-point primitives as a record of uninterpreted real
    functions (`exp`, `log`, `**` on non-whole exponents, `math.gamma`,
    `gammainc`, the standard normal integral, `sqrt(2 pi)`);
  - `Sound`, the only facts about them that the proofs use;
  - exact whole powers, `int()`, `math.factorial` and `math.comb`.
- `text.dfy`: `str.lower`, `str.replace(" ", "_")` and `str.strip`.
- `params.dfy`: the `_check_params` loop both factories share.
- `discrete.dfy`, `continuous.dfy` and `api.dfy`: the three source files.

The distributions are immutable after construction, so they are
datatypes. Each `getSample` that loops is a method with loop invariants,
proved against specification functions:
- Poisson and negative binomial are proved against the least count whose
  cumulative mass reaches the draw;
- the rejection sampler is proved against the sequence of candidates that
  a stream of draws accepts.

The random draws are passed in as sequences of reals.

Behaviour of the code that the model keeps, though a reader might expect otherwise:
- **The discrete normal's `a`:** `create` never forwards `a`, so a
  factory-built discrete normal always has `a = 10`
  (`Discrete.CreateIgnoresOtherKeys`).
- **Exponential at zero:** `getProbability` gives 0 only below 0. At 0 the
  density is `l` (`Continuous.ExponentialAtZero`).
- **The exponential rate:** the two spellings `l` and `lambda_val` are not
  interchangeable. `kwargs.get("l") or kwargs.get("lambda_val")` skips an
  `l` of 0, so `l = 0` without `lambda_val` is refused
  (`Continuous.ZeroRateIsMissing`), and `l = 0` with `lambda_val = 0`
  builds a rate of 0 (`Continuous.Rate`).
- **A `distribution_type` parameter:** both `create` methods take the name
  as their positional `distribution_type`, so a request body holding that
  key makes the call raise a TypeError before either factory runs
  (`Api.Build`, `Api.DuplicateArgument`).

## Model

| member | source | states |
|---|---|---|
| Text.Lower | python/Distribucion_discretas.py:113 | lower-casing keeps the length and maps every character through the ASCII upper-to-lower case map, leaving all others unchanged |
| Text.ReplaceSpaces | python/Distribucion_discretas.py:113 | replacing spaces keeps the length, turns exactly the spaces into underscores, and leaves no space behind |
| Text.StripIsTrimmedSlice | python/Distribucion_continuas.py:89 | strip returns a slice of the name with only whitespace outside it, and the slice neither starts nor ends with whitespace |
| Text.StripUnchanged | python/Distribucion_continuas.py:89 | a name that neither starts nor ends with whitespace is left unchanged by strip |
| Text.LowerIdempotent | main.py:37 | lower-casing twice (router, then factory) is the same as lower-casing once |
| Text.ReplaceSpacesFixesOnlyItself | python/Distribucion_discretas.py:113 | a name with no underscore is the discrete normal form only of itself |
| Numerics.Trunc | python/Distribucion_discretas.py:63 | `int()` truncates toward zero: for x >= 0 it is the largest whole number not above x, for x < 0 the smallest not below it |
| Numerics.Power | python/Distribucion_discretas.py:59 | `b ** y` for a whole non-negative y is exactly y multiplications of b |
| Numerics.PowerPositive | python/Distribucion_continuas.py:28 | a positive base raised to any power is positive |
| Numerics.Fact | python/Distribucion_discretas.py:59 | the factorial the Poisson mass divides by is at least 1, so never zero |
| Numerics.Comb | python/Distribucion_discretas.py:88 | `math.comb(n, k)` is 0 when k > n and 1 when k is 0 or n |
| Numerics.IntPowNonnegative | python/Distribucion_discretas.py:88 | a whole power of a non-negative base is non-negative |
| Numerics.IntPowPositive | python/Distribucion_discretas.py:59 | a whole power of a positive base is positive |
| ParamCheck.FirstMissing | python/Distribucion_discretas.py:131-134 | the index returned is that of the first required key, in list order, that is not provided; every earlier key is provided; it is the list length when all are provided |
| ParamCheck.FirstMissingIgnoresOtherKeys | python/Distribucion_continuas.py:108-111 | the outcome of the check depends only on which required keys are present |
| Discrete.StandardDensity | python/Distribucion_discretas.py:24-26 | the standard normal density is positive and never above 1/sqrt(2 pi), for every z |
| Discrete.StandardDensityPeak | python/Distribucion_discretas.py:24-26 | the standard density is positive and peaks at z = 0 with value 1/sqrt(2 pi), the `max_pdf` of the rejection sampler |
| Discrete.Mass | python/Distribucion_discretas.py:58-88 | at a whole count k the Poisson pmf (lines 58-59) is l^k e^-l / k!, and the negative binomial pmf (lines 87-88) is comb(k + r - 1, k) p^r (1 - p)^k |
| Discrete.Cumulative | python/Distribucion_discretas.py:61-63 | the running cumulative value at n equals the sum of the masses of 0..n, added in an independent order |
| Discrete.GetProbability | python/Distribucion_discretas.py:55-63 | for Poisson, and for the negative binomial (lines 84-92), `acc` at x >= 0 gives the sum of the masses of 0..int(x); only the normal and non-negative arguments need well-formed parameters |
| Discrete.NegativeArgumentHasNoProbability | python/Distribucion_discretas.py:55-56 | Poisson and negative binomial give 0 for every negative argument, with or without `acc`, whatever their parameters |
| Discrete.NormalIgnoresAcc | python/Distribucion_discretas.py:28-31 | the discrete normal's probability is the same whether `acc` is true or false |
| Discrete.SumOfMassesSplit | python/Distribucion_discretas.py:92 | extending the sum's range by one adds exactly the mass of the new top count |
| Discrete.MassNonnegative | python/Distribucion_discretas.py:87-88 | every point mass is non-negative when l >= 0 (Poisson), or r >= 1 and p in [0, 1] (negative binomial) |
| Discrete.CumulativeNonnegative | python/Distribucion_discretas.py:58-63 | with non-negative masses every cumulative sum is non-negative |
| Discrete.CumulativeMonotone | python/Distribucion_discretas.py:87-92 | with non-negative masses the cumulative sums never decrease in the count |
| Discrete.CumulativeProbabilityMonotone | python/Distribucion_discretas.py:55-63 | getProbability with `acc` is non-negative and non-decreasing in x, including across the 0 guard |
| Discrete.CumulativeAtLeastMass | python/Distribucion_discretas.py:84-92 | at a whole count the cumulative probability is at least the point mass |
| Discrete.LeastReachingProbability | python/Distribucion_discretas.py:70 | the count a scan stops at has cumulative probability at least the draw |
| Discrete.ClosedFormStep | python/Distribucion_discretas.py:72 | the closed form at k is the closed form at k - 1 times l / k |
| Discrete.PoissonTermIsClosedForm | python/Distribucion_discretas.py:69-72 | the running term that starts at e^-l and is multiplied by l / k at each step is l^k e^-l / k! |
| Discrete.PoissonTermIsMass | python/Distribucion_discretas.py:69-72 | the running term at k is the point mass getProbability gives at k |
| Discrete.PoissonScanStep | python/Distribucion_discretas.py:71-73 | one pass of the loop turns the term and the sum at k - 1 into the term and the cumulative sum at k |
| Discrete.PoissonScan | python/Distribucion_discretas.py:68-73 | the scan stops at the least count whose cumulative mass reaches the draw; its loop keeps p equal to the mass and f equal to the cumulative sum at k |
| Discrete.PoissonGetSample | python/Distribucion_discretas.py:65-76 | one sample per draw, two lists of the same length; each sample is a whole count >= 0, the least one reaching its draw, paired with getProbability at that count |
| Discrete.NegativeBinomialScan | python/Distribucion_discretas.py:97-104 | the scan stops at the least count whose cumulative mass reaches the draw, and returns that count's mass |
| Discrete.CountingScanStep | python/Distribucion_discretas.py:101-104 | getProbability at the next count is its mass, and adding it extends the cumulative sum |
| Discrete.NegativeBinomialGetSample | python/Distribucion_discretas.py:94-107 | one sample per draw, two lists of the same length; each sample is the least count reaching its draw, paired with its mass |
| Discrete.Uniform | python/Distribucion_discretas.py:40-41 | `random.uniform(lo, hi)` on a draw in [0, 1] lies in [lo, hi] |
| Discrete.ScaleWithin | python/Distribucion_discretas.py:41 | scaling a width w >= 0 by a draw in [0, 1] gives a value in [0, w] |
| Discrete.Accepted | python/Distribucion_discretas.py:38-47 | the candidates a stream of draws accepts, at most one per pair of draws |
| Discrete.AcceptedAppend | python/Distribucion_discretas.py:38-47 | the candidates accepted from two streams, the first of even length, are those of the first followed by those of the second |
| Discrete.AcceptedInBounds | python/Distribucion_discretas.py:40 | with a >= 0, sd > 0 and draws in [0, 1], every accepted candidate lies in [mu - a sd, mu + a sd] |
| Discrete.SampleInBounds | python/Distribucion_discretas.py:38-47 | every sample the rejection sampler returns lies in [mu - a sd, mu + a sd] under the same conditions |
| Discrete.AcceptedStep | python/Distribucion_discretas.py:39-47 | trying one more pair of draws adds that pair's candidate exactly when `fu < fz` |
| Discrete.AcceptedRest | python/Distribucion_discretas.py:39 | what is accepted up to an even position is a prefix of everything the stream accepts, and all of it once fewer than two draws remain |
| Discrete.Attempt | python/Distribucion_discretas.py:40-44 | one round of the `while True` loop: the candidate is uniform over the bounded interval, accepted exactly when `fu < fz`, with fz the standard density at its z |
| Discrete.NextAccepted | python/Distribucion_discretas.py:39-47 | the inner loop consumes pairs until one is accepted and returns that candidate and its density; if the stream runs out, nothing remaining is accepted |
| Discrete.NormalGetSample | python/Distribucion_discretas.py:33-48 | the samples are the first n candidates the draws accept, in order, each paired with `fz / sd`; if the stream runs out, every accepted candidate is returned |
| Discrete.Message | python/Distribucion_discretas.py:127-134 | the unsupported-name message quotes the name as given, and the missing-parameter message quotes the key |
| Discrete.Normalize | python/Distribucion_discretas.py:113 | the normal form has the length of the name and holds no space |
| Discrete.Create | python/Distribucion_discretas.py:112-128 | an unrecognised normal form fails with the name as given; a recognised one succeeds iff every required key is present, else fails naming the first missing key; on success the distribution is built from exactly those keys, with `a = 10` and r truncated |
| Discrete.CreatedKind | python/Distribucion_discretas.py:115-125 | the kind of distribution built determines the normal form of the requested name |
| Discrete.NormalMissingMu | python/Distribucion_discretas.py:116 | a normal request without `mu` fails naming `mu`, whether or not `sd` is given |
| Discrete.UnknownNameRejected | python/Distribucion_discretas.py:127-128 | the example "beta" with no parameters fails as unsupported, quoting "beta" (the general case is the first ensures of `Discrete.Create`) |
| Discrete.NormalizesTo | python/Distribucion_discretas.py:113 | a name whose characters, lower-cased with spaces replaced, match a word position by position normalises to that word |
| Discrete.NegativeBinomialSpelling | python/Distribucion_discretas.py:113 | "Binomial Negativa" normalises to `binomial_negativa` |
| Discrete.NegativeBinomialFromKeys | python/Distribucion_discretas.py:123-125 | any name normalising to `binomial_negativa`, given r and p, builds the negative binomial with int(r) and p |
| Discrete.SpacedCapitalisedName | python/Distribucion_discretas.py:123-125 | "Binomial Negativa" with r and p builds the negative binomial |
| Discrete.CreateIgnoresOtherKeys | python/Distribucion_discretas.py:115-117 | keys other than the required ones, `a` among them, do not change the outcome |
| Continuous.GammaOffSupport | python/Distribucion_continuas.py:25 | Gamma gives 0 for every x <= 0, with or without `acc`, whatever k and theta |
| Continuous.ExponentialOffSupport | python/Distribucion_continuas.py:44 | the exponential gives 0 for every x < 0, with or without `acc`, whatever its rate |
| Continuous.GammaDensity | python/Distribucion_continuas.py:27-29 | with k > 0 and theta > 0 the Gamma density is positive for every x > 0 |
| Continuous.GetProbability | python/Distribucion_continuas.py:24-78 | with l >= 0 the exponential cumulative value lies in [0, 1); the Gamma density, the exponential density with l >= 0 and the normal density with sd > 0 are non-negative; only Gamma at x > 0 and Normal need well-formed parameters |
| Continuous.ExponentialAtZero | python/Distribucion_continuas.py:43-50 | at 0 the exponential density is l and the cumulative value is 0 |
| Continuous.ExponentialSurvival | python/Distribucion_continuas.py:50 | for x >= 0, one minus the cumulative value is e^(-l x) |
| Continuous.ExponentialCumulativeMonotone | python/Distribucion_continuas.py:43-50 | with l >= 0 the cumulative value stays in [0, 1) and never decreases in x |
| Continuous.ExponentialDensityPositive | python/Distribucion_continuas.py:47 | with l > 0 the density is positive on the support |
| Continuous.NormalPdf | python/Distribucion_continuas.py:69-71 | the normal density is positive everywhere when sd > 0, and negative everywhere when sd < 0 |
| Continuous.InverseTransform | python/Distribucion_continuas.py:58 | for l > 0 and a draw u in [0, 1), the sample `-log(1 - u) / l` is non-negative |
| Continuous.InverseTransformRoundTrip | python/Distribucion_continuas.py:56-58 | for l > 0 and a draw u in [0, 1), the sample `-log(1 - u) / l` is non-negative and its cumulative probability is u again |
| Continuous.ExponentialGetSample | python/Distribucion_continuas.py:52-61 | one sample per draw, two lists of the same length; each sample is the inverse transform of its draw, paired with the density at that sample |
| Continuous.GetSample | python/Distribucion_continuas.py:33-36 | Gamma and Normal (lines 80-83) return the generator's variates unchanged, paired index for index with the density at each; a Gamma with any parameters is accepted when no variate is positive |
| Continuous.ZeroShapeGammaSample | python/Distribucion_continuas.py:33-36 | a Gamma with shape 0, whose generator returns zeros, pairs each zero with density 0 |
| Continuous.SampleDensitiesNonnegative | python/Distribucion_continuas.py:80-83 | every companion density of a Gamma or Normal sample is non-negative |
| Continuous.Rate | python/Distribucion_continuas.py:96 | the rate is absent iff `l` is absent or 0 and `lambda_val` is absent; otherwise it is `l` when that is present and non-zero, else `lambda_val` |
| Continuous.Create | python/Distribucion_continuas.py:88-105 | an unrecognised normal form fails with the name as given; gamma and normal succeed iff their keys are all present, else fail naming the first missing one; exponential succeeds iff a rate is found, else fails with the missing-rate error; on success the distribution is built from those keys |
| Continuous.Message | python/Distribucion_continuas.py:97-111 | the unsupported-name message quotes the name as given, the missing-parameter message quotes the key, and the missing-rate message names `l` |
| Continuous.Normalize | python/Distribucion_continuas.py:89 | the normal form is no longer than the name and neither starts nor ends with whitespace |
| Continuous.CreateChecked | python/Distribucion_continuas.py:91-102 | gamma and normal succeed iff the keys k, theta (or mean, sd) are all present, and are built from them; otherwise they fail naming the first missing key |
| Continuous.RecognisedNameIsNormal | python/Distribucion_continuas.py:89 | gamma, exponential and normal are their own normal forms |
| Continuous.LowerCaseWordIsNormal | python/Distribucion_continuas.py:89 | a non-empty word of lower-case letters is its own normal form |
| Continuous.GammaMissingK | python/Distribucion_continuas.py:92 | the example "gamma" with only `theta` fails naming `k` (the general case is `Continuous.GammaNeedsK`) |
| Continuous.GammaNeedsK | python/Distribucion_continuas.py:91-92 | any name normalising to gamma, without `k`, fails naming `k` whatever else is given |
| Continuous.ZeroRateIsMissing | python/Distribucion_continuas.py:96-97 | an exponential request with `l = 0` and no `lambda_val` fails with the missing-rate error, whatever else is given |
| Continuous.InnerSpaceRefused | python/Distribucion_continuas.py:89 | a name that still holds a space after lower-casing and stripping is refused as unsupported |
| Continuous.CreateIgnoresOtherKeys | python/Distribucion_continuas.py:88-105 | keys other than those the requested name reads do not change the outcome |
| Api.RouteOf | main.py:36-49 | the router passes the lower-cased name on; it goes to the continuous factory iff it is gamma, exponential, or normal without `mu` |
| Api.Build | main.py:40-49 | the call fails with the duplicate-argument TypeError exactly when the parameters hold `distribution_type`; otherwise a built distribution, or a refusal, comes from the continuous factory iff the route is continuous |
| Api.GetDistributionInstance | main.py:36-49 | a `distribution_type` parameter is a TypeError; otherwise the outcome is exactly the continuous factory's `create` on the lower-cased name when the route is continuous, and the discrete factory's when it is discrete |
| Api.ContinuousOnlyFromItsNames | main.py:37-40 | a continuous distribution is built only for gamma, exponential or normal without `mu`, of the kind the name says, and the continuous factory's strip never changes that name |
| Api.DiscreteNormalNeedsMu | main.py:42-45 | a discrete normal is built only for the name normal with `mu` present |
| Api.DiscreteNormalOnlyFromNormal | main.py:45 | the discrete factory builds a normal from a lower-cased name only when the name is normal |
| Api.DiscreteKindIsName | main.py:37 | a lower-cased name that normalises in the discrete factory to a word without an underscore is that word |
| Api.OtherNamesGoToDiscrete | main.py:49 | every other name goes to the discrete factory's call, lower-cased |
| Api.OtherNamesAreCounting | main.py:49 | through any other name only a Poisson or a negative binomial can be built |
| Api.UnknownNameQuotedLowerCased | main.py:49 | a name neither factory knows fails in the discrete factory, whose error quotes the lower-cased name, unless a `distribution_type` parameter stops the call first |
| Api.SpacedNamesNeverContinuous | main.py:37-40 | a name holding a space never yields a continuous distribution; only the negative binomial can be built from it |
| Api.SpacedDiscreteIsNegativeBinomial | python/Distribucion_discretas.py:113-125 | of the discrete kinds, only the negative binomial can be built from a name holding a space |
| Api.SpaceBecomesUnderscore | python/Distribucion_discretas.py:113 | a space anywhere in the name becomes an underscore in the discrete normal form |
| Api.ProbabilityParams | main.py:61 | the probability endpoint's parameters are the body's keys except distribution, value and acc, with their values unchanged |
| Api.SampleParams | main.py:77 | the sample endpoint's parameters are the body's keys except distribution and cardinality, with their values unchanged |
| Api.ReservedNotConsulted | python/Distribucion_continuas.py:88-105 | the continuous factory reads none of the keys either endpoint removes |
| Api.BuildIgnoresReserved | main.py:36-49 | parameters that differ only in the removed keys build the same distribution, or fail the same way |
| Api.EndpointsAgree | main.py:61 | one request body gives the same distribution, or the same error, with the probability endpoint's filtering (line 61) as with the sample endpoint's (line 77) |
| Api.Cardinality | main.py:75 | the sample count is the body's cardinality when present and 1 otherwise |
| Api.Acc | main.py:64 | the accumulate flag is the body's acc when present and false otherwise |

## Left out

- HTTP and UI plumbing are not modelled: the Flask routes, templates, `jsonify`, `request.get_json()` and `app.run`. So is the endpoints' `try/except`, which turns any exception into a 400 response.
- Floating point: every real number is exact. `exp`, `log`, `**` on non-whole exponents, `math.gamma`, `gammainc`, `sqrt(2 pi)` and scipy's `quad` of the standard normal density are uninterpreted functions. The proofs use only the facts listed in `Numerics.Sound`. Rounding, overflow and quadrature error are not modelled.
- Continuous.GetProbability: the cumulative normal is modelled as Phi((x - mean) / sd). That is what `quad` of `_pdf` computes only when sd > 0; for sd < 0 the source's integral has the opposite sign and is not modelled.
- Randomness: `random.random`, `random.uniform`, `np.random.gamma` and `np.random.normal` are replaced by sequences of draws or variates passed in. No distributional or statistical property is stated.
- Discrete.PoissonScan: terminates only because of a ghost `bound`, a count whose cumulative mass reaches every draw. The source relies on the total mass reaching u. Draws beyond the total mass (for example u close to 1 with rounding) loop forever in the source, and the model excludes them.
- Discrete.NegativeBinomialScan: the same ghost `bound` as the Poisson scan.
- Discrete.NormalGetSample: the source's `while True` loop draws forever until it accepts. The model reads a finite stream and returns `ok = false`, with every candidate accepted so far, when the stream runs out.
- Discrete.WellFormed: the model excludes sd = 0 for the discrete normal at every x and for sampling, and r < 1 for the negative binomial wherever a probability at x >= 0 or a sample is asked for. The source's behaviour there varies. sd = 0 is a ZeroDivisionError. For r < 1, `math.comb` raises a ValueError at the counts k < 1 - r, so every cumulative value raises through its k = 0 term. At the other counts comb(k + r - 1, k) is 0, and the mass is 0.0 unless `p ** r` itself raises: p = 0 with r < 0 is a ZeroDivisionError, for example NegativeBinomial(-2, 0) at 5. Those values and exceptions are not modelled.
- Continuous.WellFormed: the model excludes k <= 0 or theta <= 0 for a Gamma density or cumulative value at x > 0, and sd = 0 for Normal, outright. The source raises for some of these (theta = 0 divides by zero, `math.gamma` fails at 0 and the negative integers, sd = 0 divides by zero). For many others it returns a value: Gamma(2, -1) at 1 gives e. Those values are not modelled.
- Continuous.GetSample: numpy's ValueError for a negative scale or shape is not modelled. The model excludes a Normal with sd <= 0 outright (sd < 0 is numpy's ValueError, sd = 0 a ZeroDivisionError in the density). For a Gamma it takes the variates as given, so a negative k or theta, for which numpy raises, is accepted whenever no variate is positive.
- Continuous.ExponentialGetSample: requires l != 0. With l = 0 the source raises ZeroDivisionError, and that exception is not modelled.
- Continuous.InverseTransformRoundTrip: stated for draws u in [0, 1), the range `random.random()` returns. u = 1 would take the log of 0.
- Text.Lower: only ASCII letters change case, and only ASCII whitespace is stripped (`Text.IsSpace`). Python's Unicode case mapping and Unicode whitespace are not modelled.
- Parameter values: parameters are a map from names to real numbers. JSON strings, booleans or null values passed as parameters, and the `int()`/`float()` coercions on them, are not modelled. For the rate fallback this means only the value 0 is falsy; an `l` of `None` or `False` is not modelled.
- Api.GetDistributionInstance: takes the name as a string. A body without `distribution`, where the source calls `.lower()` on `None` and answers 400, is not modelled.
- Api.Cardinality: gives the count as a JSON value. A negative, fractional or non-numeric count reaching `getSample`'s `range(n)` is not modelled; the samplers take the draws, and so the count, directly.
- Api.Acc: gives the flag as a JSON value. The samplers and `getProbability` take a boolean; the source's truthiness of other JSON values is not modelled.
- The `__main__` demonstration blocks of both catalogue files are not modelled.
