/**
 * The continuous catalogue (python/Distribucion_continuas.py): Gamma,
 * Exponential and Normal, their probability and sampling operations, and
 * the factory that builds them from a name and keyword parameters.
 *
 * The variates numpy's generators return and the draws of random.random()
 * are passed in.
 */
module Continuous {
  import opened Results
  import opened Numerics
  import opened Text
  import ParamCheck

  datatype Distribution =
    | Gamma(k: real, theta: real)
    | Exponential(l: real)
    | Normal(mean: real, sd: real)

  /**
   * The parameters the model evaluates the Gamma formulas and the Normal
   * for: k > 0 and theta > 0 keep gamma(k) * theta ** k positive, and
   * sd != 0 keeps the Normal's division defined. Other Gamma parameters
   * are excluded outright, although the source gives a value for many.
   */
  predicate WellFormed(d: Distribution)
  {
    match d
    case Gamma(k, theta) => k > 0.0 && theta > 0.0
    case Exponential(_) => true
    case Normal(_, sd) => sd != 0.0
  }

  // ---------------------------------------------------------------------
  // Probabilities
  // ---------------------------------------------------------------------

  /** Normal._pdf: the Gaussian density with the distribution's mean and sd. */
  function NormalPdf(d: Distribution, num: Numerics, x: real): (r: real)
    requires d.Normal? && d.sd != 0.0 && Sound(num)
    ensures d.sd > 0.0 ==> r > 0.0
    ensures d.sd < 0.0 ==> r < 0.0
  {
    var z := (x - d.mean) / d.sd;
    var c := 1.0 / (d.sd * num.sqrtTwoPi);
    assert d.sd > 0.0 ==> c > 0.0 by {
      if d.sd > 0.0 {
        assert d.sd * num.sqrtTwoPi > 0.0;
      }
    }
    assert d.sd < 0.0 ==> c < 0.0 by {
      if d.sd < 0.0 {
        assert d.sd * num.sqrtTwoPi < 0.0;
      }
    }
    c * num.exp(-0.5 * (z * z))
  }

  /**
   * getProbability(x, acc). Gamma: 0 for x <= 0, else the density or the
   * regularised incomplete gamma at (k, x / theta). Exponential: 0 for
   * x < 0, else l e^(-l x) or 1 - e^(-l x). Normal: the density, or the
   * standard normal integral up to (x - mean) / sd. Only the Gamma
   * formulas for x > 0 and the Normal need the parameters to be well formed;
   * the guards answer for any. For a rate l >= 0 the exponential's
   * cumulative value is a probability below 1, and the Gamma, the
   * exponential with l >= 0 and the Normal with sd > 0 have non-negative
   * densities.
   */
  function GetProbability(d: Distribution, num: Numerics, x: real, acc: bool): (r: real)
    requires Sound(num)
    requires (d.Gamma? && x > 0.0) || d.Normal? ==> WellFormed(d)
    ensures d.Exponential? && d.l >= 0.0 && acc ==> 0.0 <= r < 1.0
    ensures !acc && (d.Gamma? || (d.Exponential? && d.l >= 0.0) || (d.Normal? && d.sd > 0.0)) ==> r >= 0.0
  {
    match d
    case Gamma(k, theta) =>
      if x <= 0.0 then 0.0
      else if !acc then GammaDensity(num, k, theta, x)
      else num.gammainc(k, x / theta)
    case Exponential(l) =>
      if x < 0.0 then 0.0
      else if !acc then
        assert l >= 0.0 ==> l * num.exp(-l * x) >= 0.0;
        l * num.exp(-l * x)
      else
        ExponentialTailBelowOne(num, l, x);
        1.0 - num.exp(-l * x)
    case Normal(mean, sd) =>
      if !acc then NormalPdf(d, num, x) else num.stdNormalCdf((x - mean) / sd)
  }

  /**
   * The Gamma density at x > 0, x^(k - 1) e^(-x / theta) / (gamma(k) theta^k):
   * each factor is positive, so it is.
   */
  function GammaDensity(num: Numerics, k: real, theta: real, x: real): (r: real)
    requires Sound(num) && k > 0.0 && theta > 0.0 && x > 0.0
    ensures r > 0.0
  {
    PowerPositive(num, theta, k);
    PowerPositive(num, x, k - 1.0);
    var c := 1.0 / (num.gamma(k) * Power(num, theta, k));
    assert c * Power(num, x, k - 1.0) > 0.0;
    c * Power(num, x, k - 1.0) * num.exp(-x / theta)
  }

  /** With l >= 0 and x >= 0, e^(-l x) lies in (0, 1], so 1 - e^(-l x) lies in [0, 1). */
  lemma ExponentialTailBelowOne(num: Numerics, l: real, x: real)
    requires Sound(num) && x >= 0.0
    ensures l >= 0.0 ==> 0.0 <= 1.0 - num.exp(-l * x) < 1.0
  {
    if l >= 0.0 {
      assert -l * x <= 0.0;
      assert num.exp(-l * x) <= num.exp(0.0);
    }
  }

  /** Gamma gives 0 at and below 0, in both modes, whatever its parameters. */
  lemma GammaOffSupport(d: Distribution, num: Numerics, x: real, acc: bool)
    requires d.Gamma? && Sound(num) && x <= 0.0
    ensures GetProbability(d, num, x, acc) == 0.0
  {
  }

  /** Exponential gives 0 below 0, in both modes, whatever its rate. */
  lemma ExponentialOffSupport(d: Distribution, num: Numerics, x: real, acc: bool)
    requires d.Exponential? && Sound(num) && x < 0.0
    ensures GetProbability(d, num, x, acc) == 0.0
  {
  }

  /** Exponential gives 0 only below 0: at 0 the density is l and the cumulative value 0. */
  lemma ExponentialAtZero(d: Distribution, num: Numerics)
    requires d.Exponential? && Sound(num)
    ensures GetProbability(d, num, 0.0, false) == d.l
    ensures GetProbability(d, num, 0.0, true) == 0.0
  {
    assert -d.l * 0.0 == 0.0;
  }

  /** Exponential: the survival function is e^(-l x), so cumulative value and survival add up to 1. */
  lemma ExponentialSurvival(d: Distribution, num: Numerics, x: real)
    requires d.Exponential? && Sound(num) && x >= 0.0
    ensures 1.0 - GetProbability(d, num, x, true) == num.exp(-d.l * x)
  {
  }

  /** With l >= 0 the cumulative value stays in [0, 1) and never decreases. */
  lemma ExponentialCumulativeMonotone(d: Distribution, num: Numerics, x: real, y: real)
    requires d.Exponential? && Sound(num) && d.l >= 0.0 && x <= y
    ensures 0.0 <= GetProbability(d, num, x, true) <= GetProbability(d, num, y, true) < 1.0
  {
    var l := d.l;
    if y >= 0.0 {
      assert -l * y <= 0.0;
      assert num.exp(-l * y) <= num.exp(0.0);
    }
    if x >= 0.0 {
      assert -l * y <= -l * x by {
        assert l * x <= l * y;
      }
      assert num.exp(-l * y) <= num.exp(-l * x);
    }
  }

  /** With l > 0 the exponential density is positive on its support. */
  lemma ExponentialDensityPositive(d: Distribution, num: Numerics, x: real)
    requires d.Exponential? && Sound(num) && d.l > 0.0 && x >= 0.0
    ensures GetProbability(d, num, x, false) > 0.0
  {
  }

  // ---------------------------------------------------------------------
  // Sampling
  // ---------------------------------------------------------------------

  /** The inverse transform x = -log(1 - u) / l applied to a draw u. */
  function InverseTransform(d: Distribution, num: Numerics, u: real): (x: real)
    requires d.Exponential? && d.l != 0.0
    ensures Sound(num) && d.l > 0.0 && 0.0 <= u < 1.0 ==> x >= 0.0
  {
    assert Sound(num) && d.l > 0.0 && 0.0 <= u < 1.0 ==> -num.log(1.0 - u) / d.l >= 0.0 by {
      if Sound(num) && d.l > 0.0 && 0.0 <= u < 1.0 {
        var g := num.log(1.0 - u);
        assert g <= 0.0;
        assert (-g / d.l) * d.l == -g;
      }
    }
    -num.log(1.0 - u) / d.l
  }

  /**
   * For l > 0 and a draw u in [0, 1), the transformed sample is
   * non-negative and its cumulative probability is u again.
   */
  lemma InverseTransformRoundTrip(d: Distribution, num: Numerics, u: real)
    requires d.Exponential? && Sound(num) && d.l > 0.0 && 0.0 <= u < 1.0
    ensures InverseTransform(d, num, u) >= 0.0
    ensures GetProbability(d, num, InverseTransform(d, num, u), true) == u
  {
    var l, g := d.l, num.log(1.0 - u);
    var x := -g / l;
    assert g <= 0.0;
    assert x * l == -g;
    assert x >= 0.0;
    assert -l * x == g;
    assert num.exp(g) == 1.0 - u;
  }

  /**
   * Exponential getSample: one inverse transform per draw, each sample
   * paired with its density.
   */
  method ExponentialGetSample(d: Distribution, num: Numerics, draws: seq<real>)
    returns (samples: seq<real>, pdfValues: seq<real>)
    requires d.Exponential? && d.l != 0.0 && Sound(num)
    ensures |samples| == |draws| && |pdfValues| == |draws|
    ensures forall i :: 0 <= i < |draws| ==>
              samples[i] == InverseTransform(d, num, draws[i])
              && pdfValues[i] == GetProbability(d, num, samples[i], false)
  {
    samples, pdfValues := [], [];
    for i := 0 to |draws|
      invariant |samples| == i && |pdfValues| == i
      invariant forall j :: 0 <= j < i ==>
                  samples[j] == InverseTransform(d, num, draws[j])
                  && pdfValues[j] == GetProbability(d, num, samples[j], false)
    {
      var u := draws[i];
      var x := -num.log(1.0 - u) / d.l;
      samples := samples + [x];
      pdfValues := pdfValues + [GetProbability(d, num, x, false)];
    }
  }

  /**
   * Gamma and Normal getSample: the generator's variates, each paired with
   * its density, index for index. A Normal needs sd > 0, the only scale
   * for which the generator returns variates and the density is defined;
   * a Gamma needs well-formed parameters only when some variate is
   * positive, since the guard pairs every other variate with 0 (the zeros
   * the generator returns for k = 0 or theta = 0 among them).
   */
  function GetSample(d: Distribution, num: Numerics, variates: seq<real>): (r: (seq<real>, seq<real>))
    requires (d.Gamma? || d.Normal?) && Sound(num)
    requires d.Normal? ==> d.sd > 0.0
    requires d.Gamma? ==> WellFormed(d) || forall i :: 0 <= i < |variates| ==> variates[i] <= 0.0
    ensures r.0 == variates && |r.1| == |variates|
    ensures forall i :: 0 <= i < |variates| ==> r.1[i] == GetProbability(d, num, variates[i], false)
  {
    (variates, seq(|variates|, i requires 0 <= i < |variates| => GetProbability(d, num, variates[i], false)))
  }

  /** A Gamma with shape 0 samples only zeros, each paired with density 0. */
  lemma ZeroShapeGammaSample(num: Numerics, theta: real)
    requires Sound(num)
    ensures GetSample(Gamma(0.0, theta), num, [0.0, 0.0]) == ([0.0, 0.0], [0.0, 0.0])
  {
    var r := GetSample(Gamma(0.0, theta), num, [0.0, 0.0]);
    assert |r.1| == 2 && r.1[0] == 0.0 && r.1[1] == 0.0;
    assert r.1 == [0.0, 0.0];
  }

  /** Every companion value of a Gamma or Normal sample is non-negative. */
  lemma SampleDensitiesNonnegative(d: Distribution, num: Numerics, variates: seq<real>)
    requires (d.Gamma? || d.Normal?) && Sound(num)
    requires d.Normal? ==> d.sd > 0.0
    requires d.Gamma? ==> WellFormed(d) || forall i :: 0 <= i < |variates| ==> variates[i] <= 0.0
    ensures forall i :: 0 <= i < |variates| ==> GetSample(d, num, variates).1[i] >= 0.0
  {
  }

  // ---------------------------------------------------------------------
  // The factory
  // ---------------------------------------------------------------------

  /** Why `create` refuses a request. */
  datatype FactoryError = Unsupported(name: string) | MissingParameter(key: string) | MissingRate

  /** The ValueError message raised for each error; it quotes the name or the key, and a missing rate names `l`. */
  function Message(e: FactoryError): (msg: string)
    ensures e.Unsupported? ==> Quotes(msg, e.name, 14)
    ensures e.MissingParameter? ==> Quotes(msg, e.key, 21)
    ensures e.MissingRate? ==> |msg| > 0 && msg[|msg| - 1] == 'l'
  {
    match e
    case Unsupported(name) => "Distribución '" + name + "' no soportada en este módulo."
    case MissingParameter(key) => "Error: El parámetro '" + key + "' es obligatorio."
    case MissingRate => "Falta parámetro: l"
  }

  /** create's normalisation of the requested name: lower case, then surrounding whitespace removed. */
  function Normalize(name: string): (kind: string)
    ensures |kind| <= |name|
    ensures kind == [] || (!IsSpace(kind[0]) && !IsSpace(kind[|kind| - 1]))
  {
    StripIsTrimmedSlice(Lower(name));
    Strip(Lower(name))
  }

  /**
   * `kwargs.get("l") or kwargs.get("lambda_val")`: l when it is present and
   * not 0, otherwise lambda_val (even 0), otherwise nothing.
   */
  function Rate(params: map<string, real>): (r: Option<real>)
    ensures r.None? <==> ("l" !in params || params["l"] == 0.0) && "lambda_val" !in params
    ensures r.Some? && "l" in params && params["l"] != 0.0 ==> r.value == params["l"]
    ensures r.Some? && ("l" !in params || params["l"] == 0.0) ==> r.value == params["lambda_val"]
  {
    if "l" in params && params["l"] != 0.0 then Some(params["l"])
    else if "lambda_val" in params then Some(params["lambda_val"])
    else None
  }

  /** The normalised names create recognises. */
  predicate Supported(kind: string)
  {
    kind == "gamma" || kind == "exponential" || kind == "normal"
  }

  /** The names whose keys _check_params checks, and those keys in the order they are checked. */
  function Required(kind: string): seq<string>
    requires kind == "gamma" || kind == "normal"
  {
    if kind == "gamma" then ["k", "theta"] else ["mean", "sd"]
  }

  /**
   * create(name, **params): gamma needs k then theta, exponential a rate,
   * normal mean then sd; any other normalised name is refused with the
   * name as given.
   */
  function Create(name: string, params: map<string, real>): (res: Result<Distribution, FactoryError>)
    ensures !Supported(Normalize(name)) ==> res == Failure(Unsupported(name))
    ensures Normalize(name) == "gamma" || Normalize(name) == "normal" ==>
              var req := Required(Normalize(name));
              var i := ParamCheck.FirstMissing(req, params.Keys);
              (res.Success? <==> i == |req|) && (res.Failure? ==> res.error == MissingParameter(req[i]))
    ensures Normalize(name) == "exponential" ==>
              (res.Success? <==> Rate(params).Some?) && (res.Failure? ==> res.error == MissingRate)
    ensures res.Success? ==> BuiltFrom(Normalize(name), params, res.value)
  {
    var kind := Normalize(name);
    if kind == "gamma" || kind == "normal" then CreateChecked(kind, params)
    else if kind == "exponential" then
      match Rate(params)
      case None => Failure(MissingRate)
      case Some(l) => Success(Exponential(l))
    else Failure(Unsupported(name))
  }

  /** The gamma and normal branches of create: _check_params, then the constructor. */
  function CreateChecked(kind: string, params: map<string, real>): (res: Result<Distribution, FactoryError>)
    requires kind == "gamma" || kind == "normal"
    ensures var i := ParamCheck.FirstMissing(Required(kind), params.Keys);
            (res.Success? <==> i == |Required(kind)|) && (res.Failure? ==> res.error == MissingParameter(Required(kind)[i]))
    ensures res.Success? ==> BuiltFrom(kind, params, res.value)
  {
    var req := Required(kind);
    var i := ParamCheck.FirstMissing(req, params.Keys);
    if i < |req| then Failure(MissingParameter(req[i]))
    else if kind == "gamma" then
      assert req[0] in params && req[1] in params;
      Success(Gamma(params["k"], params["theta"]))
    else
      assert req[0] in params && req[1] in params;
      Success(Normal(params["mean"], params["sd"]))
  }

  /** The distribution a recognised name builds: its fields are the required keys, or the rate. */
  predicate BuiltFrom(kind: string, params: map<string, real>, d: Distribution)
  {
    match d
    case Gamma(k, theta) =>
      kind == "gamma" && "k" in params && "theta" in params && k == params["k"] && theta == params["theta"]
    case Exponential(l) => kind == "exponential" && Rate(params) == Some(l)
    case Normal(mean, sd) =>
      kind == "normal" && "mean" in params && "sd" in params && mean == params["mean"] && sd == params["sd"]
  }

  lemma RecognisedNamesHaveNoSpace()
    ensures ' ' !in "gamma" && ' ' !in "exponential" && ' ' !in "normal"
  {
  }

  /** The three recognised names are already in normal form. */
  lemma RecognisedNameIsNormal(name: string)
    requires name == "gamma" || name == "exponential" || name == "normal"
    ensures Normalize(name) == name
  {
    if name == "gamma" {
      LowerCaseWordIsNormal("gamma");
    } else if name == "exponential" {
      LowerCaseWordIsNormal("exponential");
    } else {
      LowerCaseWordIsNormal("normal");
    }
  }

  /** A word of lower-case letters is its own normal form. */
  lemma LowerCaseWordIsNormal(s: string)
    requires s != [] && forall i :: 0 <= i < |s| ==> 'a' <= s[i] <= 'z'
    ensures Normalize(s) == s
  {
    assert Lower(s) == s;
    StripUnchanged(s);
  }

  /** Gamma checks k before theta: with only theta given it fails on k. */
  lemma GammaMissingK(theta: real)
    ensures Create("gamma", map["theta" := theta]) == Failure(MissingParameter("k"))
  {
    LowerCaseWordIsNormal("gamma");
    GammaNeedsK("gamma", map["theta" := theta]);
  }

  /** Any name normalising to gamma, without k, fails naming k whatever else is given. */
  lemma GammaNeedsK(name: string, params: map<string, real>)
    requires Normalize(name) == "gamma" && "k" !in params
    ensures Create(name, params) == Failure(MissingParameter("k"))
  {
    assert ParamCheck.FirstMissing(["k", "theta"], params.Keys) == 0;
  }

  /** A rate l of 0 counts as absent: without lambda_val the request fails, whatever else is given. */
  lemma ZeroRateIsMissing(params: map<string, real>)
    requires "l" in params && params["l"] == 0.0 && "lambda_val" !in params
    ensures Create("exponential", params) == Failure(MissingRate)
  {
    LowerCaseWordIsNormal("exponential");
  }

  /**
   * Only surrounding whitespace is removed: a normalised name that still
   * holds a space (one between words) is refused.
   */
  lemma InnerSpaceRefused(name: string, params: map<string, real>)
    requires ' ' in Normalize(name)
    ensures Create(name, params) == Failure(Unsupported(name))
  {
    var kind := Normalize(name);
    assert !Supported(kind) by {
      RecognisedNamesHaveNoSpace();
    }
  }

  /** The keys create reads for each recognised name. */
  function Consulted(kind: string): set<string>
  {
    if kind == "gamma" then {"k", "theta"}
    else if kind == "exponential" then {"l", "lambda_val"}
    else if kind == "normal" then {"mean", "sd"}
    else {}
  }

  /** Keys other than the ones create reads for the requested name change nothing. */
  lemma CreateIgnoresOtherKeys(name: string, p1: map<string, real>, p2: map<string, real>)
    requires forall key :: key in Consulted(Normalize(name)) ==>
               (key in p1 <==> key in p2) && (key in p1 ==> p1[key] == p2[key])
    ensures Create(name, p1) == Create(name, p2)
  {
    var kind := Normalize(name);
    if kind == "gamma" || kind == "normal" {
      ParamCheck.FirstMissingIgnoresOtherKeys(Required(kind), p1.Keys, p2.Keys);
    } else if kind == "exponential" {
      assert Rate(p1) == Rate(p2);
    }
  }
}
