/**
 * The floating-point primitives the distributions call (math.exp, math.log,
 * the `**` operator on non-integer exponents, math.gamma, scipy's gammainc
 * and scipy's quad applied to the standard normal density) are not modelled
 * numerically. They are fields of a record of uninterpreted real functions;
 * `Sound` lists the only facts about them that the model relies on.
 * Everything else (sums, products, factorials, binomial coefficients, whole
 * powers, Python's int()) is exact real or integer arithmetic.
 */
module Numerics {

  datatype Numerics = Numerics(
    exp: real -> real,               // math.exp / np.exp
    log: real -> real,               // math.log
    pow: (real, real) -> real,       // b ** y for an exponent y that is not a whole number
    gamma: real -> real,             // math.gamma
    gammainc: (real, real) -> real,  // scipy.special.gammainc (regularised lower incomplete gamma)
    stdNormalCdf: real -> real,      // quad(standard normal density, -inf, z)
    sqrtTwoPi: real                  // math.sqrt(2 * math.pi)
  )

  /** The facts about the primitives that the proofs use, and nothing more. */
  ghost predicate Sound(num: Numerics)
  {
    && (forall x: real :: num.exp(x) > 0.0)
    && (forall x: real, y: real :: x <= y ==> num.exp(x) <= num.exp(y))
    && num.exp(0.0) == 1.0
    && (forall b: real, y: real :: b > 0.0 ==> num.pow(b, y) > 0.0)
    && (forall x: real :: x > 0.0 ==> num.gamma(x) > 0.0)
    && (forall y: real :: 0.0 < y <= 1.0 ==> num.log(y) <= 0.0)
    && (forall y: real :: y > 0.0 ==> num.exp(num.log(y)) == y)
    && num.sqrtTwoPi > 0.0
  }

  /** b to a natural power n, by n multiplications. */
  function IntPow(b: real, n: nat): real
  {
    if n == 0 then 1.0 else IntPow(b, n - 1) * b
  }

  lemma {:induction false} IntPowNonnegative(b: real, n: nat)
    requires b >= 0.0
    ensures IntPow(b, n) >= 0.0
  {
    if n > 0 {
      IntPowNonnegative(b, n - 1);
    }
  }

  lemma {:induction false} IntPowPositive(b: real, n: nat)
    requires b > 0.0
    ensures IntPow(b, n) > 0.0
  {
    if n > 0 {
      IntPowPositive(b, n - 1);
    }
  }

  predicate IsWhole(y: real)
  {
    y == y.Floor as real
  }

  /** Python's `b ** y`: exact repeated multiplication for a whole non-negative y, the primitive otherwise. */
  function Power(num: Numerics, b: real, y: real): (r: real)
    ensures IsWhole(y) && y >= 0.0 ==> r == IntPow(b, y.Floor)
  {
    if IsWhole(y) && y >= 0.0 then IntPow(b, y.Floor) else num.pow(b, y)
  }

  lemma PowerPositive(num: Numerics, b: real, y: real)
    requires Sound(num) && b > 0.0
    ensures Power(num, b, y) > 0.0
  {
    if IsWhole(y) && y >= 0.0 {
      IntPowPositive(b, y.Floor);
    }
  }

  /** Python's int() on a float: truncation toward zero. */
  function Trunc(x: real): (r: int)
    ensures x >= 0.0 ==> 0 <= r && r as real <= x < r as real + 1.0
    ensures x < 0.0 ==> r <= 0 && x <= r as real && r as real < x + 1.0
  {
    if x >= 0.0 then x.Floor else -((-x).Floor)
  }

  /** math.factorial, as the real number a float division by it uses. */
  function Fact(n: nat): (r: real)
    ensures r >= 1.0
  {
    if n == 0 then 1.0 else n as real * Fact(n - 1)
  }

  /** math.comb(n, k): the number of k-element subsets of an n-element set, 0 when k > n. */
  function Comb(n: nat, k: nat): (r: nat)
    ensures k > n ==> r == 0
    ensures k == 0 || k == n ==> r == 1
  {
    if k == 0 then 1
    else if n == 0 then 0
    else Comb(n - 1, k - 1) + Comb(n - 1, k)
  }
}
