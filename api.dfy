/**
 * The request layer of main.py: get_distribution_instance, which sends a
 * distribution name to the discrete or the continuous factory, and the
 * filtering that turns a request body into factory parameters.
 */
module Api {
  import opened Results
  import opened Text
  import Discrete
  import Continuous

  /** A distribution built by one of the two factories. */
  datatype Instance =
    | DiscreteInstance(d: Discrete.Distribution)
    | ContinuousInstance(c: Continuous.Distribution)

  /**
   * Why no distribution was built: the ValueError of the factory that
   * refused the request, or the TypeError Python raises before either
   * factory runs when the parameters hold the key `distribution_type`,
   * which both create methods already take as their first, positional,
   * argument.
   */
  datatype RouteError =
    | DiscreteError(de: Discrete.FactoryError)
    | ContinuousError(ce: Continuous.FactoryError)
    | DuplicateArgument

  /** The name of the factories' positional parameter, which a keyword argument may not repeat. */
  const PositionalName: string := "distribution_type"

  function FromDiscrete(r: Result<Discrete.Distribution, Discrete.FactoryError>): Result<Instance, RouteError>
  {
    match r
    case Success(d) => Success(DiscreteInstance(d))
    case Failure(e) => Failure(DiscreteError(e))
  }

  function FromContinuous(r: Result<Continuous.Distribution, Continuous.FactoryError>): Result<Instance, RouteError>
  {
    match r
    case Success(c) => Success(ContinuousInstance(c))
    case Failure(e) => Failure(ContinuousError(e))
  }

  /** The factory get_distribution_instance hands a request to, with the name it passes. */
  datatype Route = ToDiscrete(name: string) | ToContinuous(name: string)

  /**
   * The routing decision of get_distribution_instance: the lower-cased name
   * "gamma" or "exponential" goes to the continuous factory, "normal" to
   * the discrete one when `mu` is a parameter and to the continuous one
   * otherwise, and every other name to the discrete one. Either way the
   * factory receives the lower-cased name.
   */
  function RouteOf(distName: string, params: map<string, real>): (r: Route)
    ensures r.name == Lower(distName)
    ensures r.ToContinuous? <==>
              var name := Lower(distName);
              name == "gamma" || name == "exponential" || (name == "normal" && "mu" !in params)
  {
    var name := Lower(distName);
    if name == "gamma" || name == "exponential" then ToContinuous(name)
    else if name == "normal" then
      if "mu" in params then ToDiscrete("normal") else ToContinuous("normal")
    else ToDiscrete(name)
  }

  /**
   * The chosen factory's create(name, **params): a `distribution_type`
   * key is refused before the call, otherwise the factory's outcome is
   * wrapped as an instance or an error, which always comes from the
   * factory the route names.
   */
  function Build(route: Route, params: map<string, real>): (res: Result<Instance, RouteError>)
    ensures res == Failure(DuplicateArgument) <==> PositionalName in params
    ensures res.Success? ==> (res.value.ContinuousInstance? <==> route.ToContinuous?)
    ensures res.Failure? && PositionalName !in params ==> (res.error.ContinuousError? <==> route.ToContinuous?)
  {
    if PositionalName in params then Failure(DuplicateArgument)
    else
      match route
      case ToDiscrete(name) => FromDiscrete(Discrete.Create(name, params))
      case ToContinuous(name) => FromContinuous(Continuous.Create(name, params))
  }

  /**
   * get_distribution_instance(dist_name, params): a `distribution_type`
   * parameter is a TypeError; otherwise the outcome is exactly that of the
   * factory RouteOf chooses, given the lower-cased name.
   */
  function GetDistributionInstance(distName: string, params: map<string, real>): (res: Result<Instance, RouteError>)
    ensures PositionalName in params ==> res == Failure(DuplicateArgument)
    ensures PositionalName !in params && RouteOf(distName, params).ToContinuous? ==>
              res == FromContinuous(Continuous.Create(Lower(distName), params))
    ensures PositionalName !in params && RouteOf(distName, params).ToDiscrete? ==>
              res == FromDiscrete(Discrete.Create(Lower(distName), params))
  {
    Build(RouteOf(distName, params), params)
  }

  /**
   * A continuous distribution comes only from the lower-cased names gamma,
   * exponential and normal (the last only without `mu`), and of the kind
   * the name says. Such a name holds no whitespace, so the continuous
   * factory's strip never changes what the router hands it.
   */
  lemma ContinuousOnlyFromItsNames(distName: string, params: map<string, real>)
    requires GetDistributionInstance(distName, params).Success?
    requires GetDistributionInstance(distName, params).value.ContinuousInstance?
    ensures var name, c := Lower(distName), GetDistributionInstance(distName, params).value.c;
            && (name == "gamma" <==> c.Gamma?)
            && (name == "exponential" <==> c.Exponential?)
            && (name == "normal" <==> c.Normal?)
            && (c.Normal? ==> "mu" !in params)
            && Continuous.Normalize(name) == name
  {
    var name := Lower(distName);
    assert RouteOf(distName, params).ToContinuous?;
    Continuous.RecognisedNameIsNormal(name);
  }

  /** The discrete factory's normal form of a lower-cased name with no underscore is that name. */
  lemma DiscreteKindIsName(distName: string, kind: string)
    requires '_' !in kind && Discrete.Normalize(Lower(distName)) == kind
    ensures Lower(distName) == kind
  {
    LowerIdempotent(distName);
    ReplaceSpacesFixesOnlyItself(Lower(distName), kind);
  }

  /** A discrete normal is built only for the name normal when `mu` is a parameter. */
  lemma DiscreteNormalNeedsMu(distName: string, params: map<string, real>)
    requires GetDistributionInstance(distName, params).Success?
    requires GetDistributionInstance(distName, params).value.DiscreteInstance?
    requires GetDistributionInstance(distName, params).value.d.Normal?
    ensures Lower(distName) == "normal" && "mu" in params
  {
    var name := Lower(distName);
    var r := Discrete.Create(name, params);
    assert RouteOf(distName, params) == ToDiscrete(name);
    assert r.Success? && r.value.Normal? by {
      assert GetDistributionInstance(distName, params) == FromDiscrete(r);
    }
    DiscreteKindIsName(distName, "normal");
  }

  /** Every other name goes to the discrete factory, lower-cased. */
  lemma OtherNamesGoToDiscrete(distName: string, params: map<string, real>)
    requires var name := Lower(distName); name != "gamma" && name != "exponential" && name != "normal"
    ensures GetDistributionInstance(distName, params) == Build(ToDiscrete(Lower(distName)), params)
  {
    assert RouteOf(distName, params) == ToDiscrete(Lower(distName));
  }

  /** Through any other name only a Poisson or a negative binomial can be built. */
  lemma OtherNamesAreCounting(distName: string, params: map<string, real>)
    requires var name := Lower(distName); name != "gamma" && name != "exponential" && name != "normal"
    ensures var res := GetDistributionInstance(distName, params);
            res.Success? ==> res.value.DiscreteInstance? && Discrete.Counting(res.value.d)
  {
    OtherNamesGoToDiscrete(distName, params);
    var r := Discrete.Create(Lower(distName), params);
    if PositionalName !in params && r.Success? && r.value.Normal? {
      DiscreteNormalOnlyFromNormal(distName, params);
    }
  }

  /** The discrete factory builds a normal from a lower-cased name only when that name is "normal". */
  lemma DiscreteNormalOnlyFromNormal(distName: string, params: map<string, real>)
    requires Discrete.Create(Lower(distName), params).Success?
    requires Discrete.Create(Lower(distName), params).value.Normal?
    ensures Lower(distName) == "normal"
  {
    Discrete.CreatedKind(Lower(distName), params);
    NoUnderscoreIn("normal");
    DiscreteKindIsName(distName, "normal");
  }

  lemma NoUnderscoreIn(word: string)
    requires word == "normal" || word == "poisson"
    ensures '_' !in word
  {
  }

  /**
   * A name neither factory recognises is refused by the discrete factory,
   * whose error quotes the lower-cased name rather than the one requested,
   * unless a `distribution_type` parameter stops the call first.
   */
  lemma UnknownNameQuotedLowerCased(distName: string, params: map<string, real>)
    requires var name := Lower(distName); name != "gamma" && name != "exponential" && name != "normal"
    requires !Discrete.Supported(Discrete.Normalize(Lower(distName)))
    ensures GetDistributionInstance(distName, params)
         == if PositionalName in params then Failure(DuplicateArgument)
            else Failure(DiscreteError(Discrete.Unsupported(Lower(distName))))
  {
    OtherNamesGoToDiscrete(distName, params);
  }

  /**
   * A name that still holds a space after lower-casing never yields a
   * continuous distribution, whatever the continuous factory's strip would
   * make of it: only "binomial negativa" and its variants build anything.
   */
  lemma SpacedNamesNeverContinuous(distName: string, params: map<string, real>)
    requires ' ' in Lower(distName)
    ensures var res := GetDistributionInstance(distName, params);
            res.Success? ==> res.value.DiscreteInstance? && res.value.d.NegativeBinomial?
  {
    var name := Lower(distName);
    assert name != "gamma" && name != "exponential" && name != "normal" by {
      Continuous.RecognisedNamesHaveNoSpace();
    }
    OtherNamesGoToDiscrete(distName, params);
    SpacedDiscreteIsNegativeBinomial(name, params);
  }

  /** Of the discrete names, only the negative binomial's can hold a space. */
  lemma SpacedDiscreteIsNegativeBinomial(name: string, params: map<string, real>)
    requires ' ' in name
    ensures Discrete.Create(name, params).Success? ==> Discrete.Create(name, params).value.NegativeBinomial?
  {
    if Discrete.Create(name, params).Success? {
      Discrete.CreatedKind(name, params);
      SpaceBecomesUnderscore(name);
      NoUnderscoreIn("normal");
      NoUnderscoreIn("poisson");
    }
  }

  /** The discrete factory turns a space anywhere in the name into an underscore. */
  lemma SpaceBecomesUnderscore(name: string)
    requires ' ' in name
    ensures '_' in Discrete.Normalize(name)
  {
    var i :| 0 <= i < |name| && name[i] == ' ';
    assert Lower(name)[i] == ' ';
    assert Discrete.Normalize(name)[i] == '_';
  }

  // ---------------------------------------------------------------------
  // Request bodies
  // ---------------------------------------------------------------------

  /** The /probability parameters: the body without `distribution`, `value` and `acc`. */
  function ProbabilityParams<V>(data: map<string, V>): (params: map<string, V>)
    ensures params.Keys == data.Keys - {"distribution", "value", "acc"}
    ensures forall key :: key in params ==> params[key] == data[key]
  {
    map key | key in data && key !in {"distribution", "value", "acc"} :: data[key]
  }

  /** The /sample parameters: the body without `distribution` and `cardinality`; `value` and `acc` stay. */
  function SampleParams<V>(data: map<string, V>): (params: map<string, V>)
    ensures params.Keys == data.Keys - {"distribution", "cardinality"}
    ensures forall key :: key in params ==> params[key] == data[key]
  {
    map key | key in data && key !in {"distribution", "cardinality"} :: data[key]
  }

  /** The keys at least one endpoint removes from the body. */
  const Reserved: set<string> := {"distribution", "value", "acc", "cardinality"}

  /** p1 and p2 hold the same keys with the same values, the reserved keys aside. */
  predicate AgreeOutsideReserved(p1: map<string, real>, p2: map<string, real>)
  {
    && (forall key :: key in p1 && key !in Reserved ==> key in p2 && p1[key] == p2[key])
    && (forall key :: key in p2 && key !in Reserved ==> key in p1)
  }

  lemma ReservedNotConsulted(kind: string)
    ensures forall key :: key in Continuous.Consulted(kind) ==> key !in Reserved
  {
    var keys := Continuous.Consulted(kind);
    if kind == "gamma" {
      assert keys == {"k", "theta"};
    } else if kind == "exponential" {
      assert keys == {"l", "lambda_val"};
    } else if kind == "normal" {
      assert keys == {"mean", "sd"};
    } else {
      assert keys == {};
    }
  }

  /** No factory reads a reserved key, so neither factory can tell such parameters apart. */
  lemma BuildIgnoresReserved(route: Route, p1: map<string, real>, p2: map<string, real>)
    requires AgreeOutsideReserved(p1, p2)
    ensures Build(route, p1) == Build(route, p2)
  {
    assert PositionalName in p1 <==> PositionalName in p2;
    if PositionalName in p1 {
      return;
    }
    match route
    case ToContinuous(n) =>
      var kind := Continuous.Normalize(n);
      ReservedNotConsulted(kind);
      Continuous.CreateIgnoresOtherKeys(n, p1, p2);
    case ToDiscrete(n) =>
      var kind := Discrete.Normalize(n);
      if Discrete.Supported(kind) {
        var req := Discrete.Required(kind);
        assert forall j :: 0 <= j < |req| ==> req[j] !in Reserved;
        Discrete.CreateIgnoresOtherKeys(n, p1, p2);
      }
  }

  /**
   * The keys the two endpoints filter differently are read by no factory:
   * one body builds the same distribution, or fails the same way, at both.
   */
  lemma EndpointsAgree(distName: string, data: map<string, real>)
    ensures GetDistributionInstance(distName, ProbabilityParams(data))
         == GetDistributionInstance(distName, SampleParams(data))
  {
    var p1, p2 := ProbabilityParams(data), SampleParams(data);
    assert AgreeOutsideReserved(p1, p2);
    assert "mu" in p1 <==> "mu" in p2;
    assert RouteOf(distName, p1) == RouteOf(distName, p2);
    BuildIgnoresReserved(RouteOf(distName, p1), p1, p2);
  }

  /** A JSON value of the request body, as far as the defaults need it. */
  datatype Json = Number(n: real) | Boolean(b: bool) | String(s: string)

  /** data.get('cardinality', 1). */
  function Cardinality(data: map<string, Json>): (n: Json)
    ensures "cardinality" in data ==> n == data["cardinality"]
    ensures "cardinality" !in data ==> n == Number(1.0)
  {
    if "cardinality" in data then data["cardinality"] else Number(1.0)
  }

  /** data.get('acc', False). */
  function Acc(data: map<string, Json>): (acc: Json)
    ensures "acc" in data ==> acc == data["acc"]
    ensures "acc" !in data ==> acc == Boolean(false)
  {
    if "acc" in data then data["acc"] else Boolean(false)
  }
}
