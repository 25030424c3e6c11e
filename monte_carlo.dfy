/**
 * The Monte Carlo estimator: simulated geometric Brownian motion paths, a
 * payoff evaluated once per path, running sums of the payoffs and of their
 * squares, and the discounted mean with its standard error.
 *
 * The random stream is the function `gauss`: `gauss(n)` is the `n`-th
 * standard normal draw the generator yields, so drawing in order is reading
 * `gauss` at consecutive positions.
 */
module MonteCarlo {
  import opened Numeric
  import opened Outcomes

  /** The discounted price estimate and its standard error. */
  datatype MonteCarloResult = MonteCarloResult(price: real, standardError: real)

  /** Starting price and the per-step log drift and diffusion of a path. */
  datatype Dynamics = Dynamics(spot: real, drift: real, diffusion: real)

  /** The running total `payoff_sum += v` builds, added in order. */
  function Sum(vs: seq<real>): real
  {
    if vs == [] then 0.0 else Sum(vs[..|vs| - 1]) + vs[|vs| - 1]
  }

  /** The running total `payoff_sq_sum += v ** 2` builds, added in order. */
  function SumOfSquares(vs: seq<real>): real
  {
    if vs == [] then 0.0 else SumOfSquares(vs[..|vs| - 1]) + Square(vs[|vs| - 1])
  }

  /** Path `j + 1` starts reading the stream `steps` draws after path `j`. */
  lemma NextPathStart(j: nat, steps: nat)
    ensures (j + 1) * steps == j * steps + steps
  {
  }

  /** Adding one payoff to the end adds it, and its square, to the running sums. */
  lemma SumsAppend(vs: seq<real>, v: real)
    ensures Sum(vs + [v]) == Sum(vs) + v
    ensures SumOfSquares(vs + [v]) == SumOfSquares(vs) + Square(v)
  {
    assert (vs + [v])[..|vs|] == vs;
  }

  /**
   * The path of `n` steps that starts at the spot and multiplies the last
   * price by `exp(drift + diffusion * z)` per step, `z` read from the stream
   * at positions `first`, `first + 1`, ...
   */
  function SimulatedPath(d: Dynamics, m: MathLib, gauss: nat -> real, first: nat, n: nat): (path: seq<real>)
    ensures |path| == n + 1 && path[0] == d.spot
  {
    if n == 0 then
      [d.spot]
    else
      SimulatedPath(d, m, gauss, first, n - 1) + [NextSpot(d, m, SimulatedPath(d, m, gauss, first, n - 1)[n - 1], gauss(first + n - 1))]
  }

  /** One step of geometric Brownian motion from `previous` with normal draw `z`. */
  function NextSpot(d: Dynamics, m: MathLib, previous: real, z: real): real
  {
    previous * m.exp(d.drift + d.diffusion * z)
  }

  /** The payoffs of the first `count` paths, each path reading the next `steps` draws. */
  function PayoffValues(payoff: seq<real> -> real, d: Dynamics, m: MathLib, gauss: nat -> real,
                        steps: nat, count: nat): (vs: seq<real>)
    ensures |vs| == count
  {
    if count == 0 then
      []
    else
      PayoffValues(payoff, d, m, gauss, steps, count - 1) + [PathPayoff(payoff, d, m, gauss, steps, count - 1)]
  }

  /** The payoff of path `j`, the path that reads the stream from draw `j * steps` on. */
  function PathPayoff(payoff: seq<real> -> real, d: Dynamics, m: MathLib, gauss: nat -> real, steps: nat, j: nat): real
  {
    payoff(SimulatedPath(d, m, gauss, j * steps, steps))
  }

  /** The path dynamics `monte_carlo_option_price` derives from the market inputs. */
  function GbmDynamics(spot: real, maturity: real, rate: real, volatility: real, steps: int, m: MathLib): Dynamics
    requires steps > 0
  {
    Dynamics(spot, (rate - 0.5 * volatility * volatility) * (maturity / (steps as real)),
             volatility * m.sqrt(maturity / (steps as real)))
  }

  /** The discounted mean payoff and the discounted standard error from the two running sums. */
  function Estimate(payoffSum: real, payoffSqSum: real, paths: int, discount: real, m: MathLib): MonteCarloResult
    requires paths > 0
  {
    MonteCarloResult(
      discount * (payoffSum / (paths as real)),
      discount * m.sqrt(Variance(payoffSum, payoffSqSum, paths) / (paths as real)))
  }

  /** The sample variance, floored at zero. */
  function Variance(payoffSum: real, payoffSqSum: real, paths: int): (v: real)
    requires paths > 0
    ensures v >= 0.0
    ensures v >= payoffSqSum / (paths as real) - (payoffSum / (paths as real)) * (payoffSum / (paths as real))
    ensures v == payoffSqSum / (paths as real) - (payoffSum / (paths as real)) * (payoffSum / (paths as real)) || v == 0.0
  {
    Max(payoffSqSum / (paths as real) - (payoffSum / (paths as real)) * (payoffSum / (paths as real)), 0.0)
  }

  /** The result `monte_carlo_option_price` returns or the error it raises. */
  function MonteCarloPrice(payoff: seq<real> -> real, spot: real, maturity: real, rate: real, volatility: real,
                           steps: int, paths: int, gauss: nat -> real, m: MathLib): Result<MonteCarloResult>
  {
    if steps <= 0 then
      Err(StepsNotPositive)
    else if paths <= 0 then
      Err(PathsNotPositive)
    else if maturity / (steps as real) < 0.0 then
      Err(MathDomainError)
    else
      Ok(Estimate(
        Sum(PayoffValues(payoff, GbmDynamics(spot, maturity, rate, volatility, steps, m), m, gauss, steps, paths)),
        SumOfSquares(PayoffValues(payoff, GbmDynamics(spot, maturity, rate, volatility, steps, m), m, gauss, steps, paths)),
        paths, m.exp(-rate * maturity), m))
  }

  /** Past validation, the estimate is computed from the sums over all simulated paths. */
  lemma MonteCarloPriceAccepted(payoff: seq<real> -> real, spot: real, maturity: real, rate: real, volatility: real,
                                steps: int, paths: int, gauss: nat -> real, m: MathLib)
    requires steps > 0 && paths > 0 && maturity / (steps as real) >= 0.0
    ensures MonteCarloPrice(payoff, spot, maturity, rate, volatility, steps, paths, gauss, m) == Ok(Estimate(
        Sum(PayoffValues(payoff, GbmDynamics(spot, maturity, rate, volatility, steps, m), m, gauss, steps, paths)),
        SumOfSquares(PayoffValues(payoff, GbmDynamics(spot, maturity, rate, volatility, steps, m), m, gauss, steps, paths)),
        paths, m.exp(-rate * maturity), m))
  {
  }

  /**
   * Builds one price path by appending `steps` simulated prices to `[spot]`,
   * reading the stream from position `first` on.
   */
  method SimulatePath(d: Dynamics, m: MathLib, gauss: nat -> real, first: nat, steps: nat) returns (path: seq<real>)
    ensures path == SimulatedPath(d, m, gauss, first, steps)
  {
    path := [d.spot];
    var k := 0;
    while k < steps
      invariant 0 <= k <= steps
      invariant path == SimulatedPath(d, m, gauss, first, k)
    {
      var z := gauss(first + k);
      var nextSpot := NextSpot(d, m, path[|path| - 1], z);
      path := path + [nextSpot];
      k := k + 1;
    }
  }

  /**
   * The trial loop: simulates `paths` paths one after another, each reading
   * the next `steps` draws of the stream, and keeps the running sums of the
   * payoffs and of their squares.
   */
  method AccumulatePayoffs(payoff: seq<real> -> real, d: Dynamics, m: MathLib, gauss: nat -> real, steps: nat, paths: nat)
    returns (payoffSum: real, payoffSqSum: real)
    ensures payoffSum == Sum(PayoffValues(payoff, d, m, gauss, steps, paths))
    ensures payoffSqSum == SumOfSquares(PayoffValues(payoff, d, m, gauss, steps, paths))
  {
    payoffSum := 0.0;
    payoffSqSum := 0.0;
    var draws := 0;
    ghost var values: seq<real> := [];
    var j := 0;
    while j < paths
      invariant 0 <= j <= paths
      invariant draws == j * steps
      invariant values == PayoffValues(payoff, d, m, gauss, steps, j)
      invariant payoffSum == Sum(values) && payoffSqSum == SumOfSquares(values)
    {
      var path := SimulatePath(d, m, gauss, draws, steps);
      NextPathStart(j, steps);
      draws := draws + steps;
      var payoffVal := payoff(path);
      payoffSum := payoffSum + payoffVal;
      payoffSqSum := payoffSqSum + Square(payoffVal);
      SumsAppend(values, payoffVal);
      values := values + [payoffVal];
      j := j + 1;
    }
  }

  /**
   * Estimates the discounted expected payoff: validates the inputs, then for
   * each path builds the price path by appending one simulated step at a
   * time, evaluates the payoff on it and adds the payoff and its square to
   * the running sums.
   */
  method MonteCarloOptionPrice(payoff: seq<real> -> real, spot: real, maturity: real, rate: real, volatility: real,
                               steps: int, paths: int, gauss: nat -> real, m: MathLib)
    returns (r: Result<MonteCarloResult>)
    ensures steps <= 0 ==> r == Err(StepsNotPositive)
    ensures steps > 0 && paths <= 0 ==> r == Err(PathsNotPositive)
    ensures r == MonteCarloPrice(payoff, spot, maturity, rate, volatility, steps, paths, gauss, m)
  {
    if steps <= 0 {
      return Err(StepsNotPositive);
    }
    if paths <= 0 {
      return Err(PathsNotPositive);
    }
    var dt := maturity / (steps as real);
    var drift := (rate - 0.5 * volatility * volatility) * dt;
    if dt < 0.0 {
      return Err(MathDomainError);
    }
    var diffusion := volatility * m.sqrt(dt);
    var discount := m.exp(-rate * maturity);
    var d := Dynamics(spot, drift, diffusion);
    assert d == GbmDynamics(spot, maturity, rate, volatility, steps, m);

    var payoffSum, payoffSqSum := AccumulatePayoffs(payoff, d, m, gauss, steps, paths);
    MonteCarloPriceAccepted(payoff, spot, maturity, rate, volatility, steps, paths, gauss, m);
    return Ok(Estimate(payoffSum, payoffSqSum, paths, discount, m));
  }

  /** The first `k + 1` prices of a longer path are the path of `k` steps: later steps never rewrite earlier prices. */
  lemma {:induction false} PathPrefix(d: Dynamics, m: MathLib, gauss: nat -> real, first: nat, n: nat, k: nat)
    requires k <= n
    ensures SimulatedPath(d, m, gauss, first, n)[..k + 1] == SimulatedPath(d, m, gauss, first, k)
    decreases n
  {
    if k < n {
      PathPrefix(d, m, gauss, first, n - 1, k);
      var path := SimulatedPath(d, m, gauss, first, n);
      assert path[..n] == SimulatedPath(d, m, gauss, first, n - 1);
      assert path[..k + 1] == path[..n][..k + 1];
    }
  }

  /** Every price after the first is its predecessor times `exp(drift + diffusion * z)`, with `z` the matching draw. */
  lemma PathStep(d: Dynamics, m: MathLib, gauss: nat -> real, first: nat, n: nat, k: nat)
    requires 0 < k <= n
    ensures SimulatedPath(d, m, gauss, first, n)[k] ==
            NextSpot(d, m, SimulatedPath(d, m, gauss, first, n)[k - 1], gauss(first + k - 1))
  {
    PathPrefix(d, m, gauss, first, n, k);
    var path := SimulatedPath(d, m, gauss, first, n);
    assert path[k] == path[..k + 1][k] && path[k - 1] == path[..k + 1][k - 1];
  }

  /** Starting from a positive spot, a path stays positive, because every step multiplies by a positive exponential. */
  lemma {:induction false} PathPositive(d: Dynamics, m: MathLib, gauss: nat -> real, first: nat, n: nat)
    requires d.spot > 0.0
    requires forall x :: m.exp(x) > 0.0
    ensures forall k :: 0 <= k < |SimulatedPath(d, m, gauss, first, n)| ==> SimulatedPath(d, m, gauss, first, n)[k] > 0.0
  {
    if n > 0 {
      PathPositive(d, m, gauss, first, n - 1);
      var prev := SimulatedPath(d, m, gauss, first, n - 1);
      NextSpotPositive(d, m, prev[n - 1], gauss(first + n - 1));
      assert SimulatedPath(d, m, gauss, first, n) == prev + [NextSpot(d, m, prev[n - 1], gauss(first + n - 1))];
    }
  }

  /** A positive price stays positive after one step. */
  lemma NextSpotPositive(d: Dynamics, m: MathLib, previous: real, z: real)
    requires previous > 0.0
    requires forall x :: m.exp(x) > 0.0
    ensures NextSpot(d, m, previous, z) > 0.0
  {
    var growth := m.exp(d.drift + d.diffusion * z);
    assert growth > 0.0;
    assert previous * growth > 0.0;
  }

  /** The `j`-th accumulated payoff is the payoff of the path that reads draws `j * steps` onwards. */
  lemma {:induction false} PayoffValueAt(payoff: seq<real> -> real, d: Dynamics, m: MathLib, gauss: nat -> real,
                                         steps: nat, count: nat, j: nat)
    requires j < count
    ensures PayoffValues(payoff, d, m, gauss, steps, count)[j] == PathPayoff(payoff, d, m, gauss, steps, j)
  {
    if j < count - 1 {
      PayoffValueAt(payoff, d, m, gauss, steps, count - 1, j);
    }
  }

  /** A sum of non-negative payoffs is non-negative. */
  lemma {:induction false} SumNonNegative(vs: seq<real>)
    requires forall i :: 0 <= i < |vs| ==> vs[i] >= 0.0
    ensures Sum(vs) >= 0.0
  {
    if vs != [] {
      SumNonNegative(vs[..|vs| - 1]);
    }
  }

  /** A sum of squares is never negative. */
  lemma {:induction false} SumOfSquaresNonNegative(vs: seq<real>)
    ensures SumOfSquares(vs) >= 0.0
  {
    if vs != [] {
      SumOfSquaresNonNegative(vs[..|vs| - 1]);
    }
  }

  /** The returned standard error is never negative, given what `math.exp` and `math.sqrt` guarantee. */
  lemma StandardErrorNonNegative(payoff: seq<real> -> real, spot: real, maturity: real, rate: real, volatility: real,
                                 steps: int, paths: int, gauss: nat -> real, m: MathLib)
    requires WellBehaved(m)
    ensures var r := MonteCarloPrice(payoff, spot, maturity, rate, volatility, steps, paths, gauss, m);
      r.Ok? ==> r.value.standardError >= 0.0
  {
    if steps > 0 && paths > 0 && maturity / (steps as real) >= 0.0 {
      var vs := PayoffValues(payoff, GbmDynamics(spot, maturity, rate, volatility, steps, m), m, gauss, steps, paths);
      var variance := Variance(Sum(vs), SumOfSquares(vs), paths);
      var discount := m.exp(-rate * maturity);
      assert variance / (paths as real) >= 0.0;
      var se := m.sqrt(variance / (paths as real));
      assert discount > 0.0 && se >= 0.0;
      assert discount * se >= 0.0;
    }
  }

  /** A payoff that is never negative gives a price estimate that is never negative. */
  lemma PriceNonNegative(payoff: seq<real> -> real, spot: real, maturity: real, rate: real, volatility: real,
                         steps: int, paths: int, gauss: nat -> real, m: MathLib)
    requires WellBehaved(m)
    requires forall path :: payoff(path) >= 0.0
    ensures var r := MonteCarloPrice(payoff, spot, maturity, rate, volatility, steps, paths, gauss, m);
      r.Ok? ==> r.value.price >= 0.0
  {
    if steps > 0 && paths > 0 && maturity / (steps as real) >= 0.0 {
      var d := GbmDynamics(spot, maturity, rate, volatility, steps, m);
      var vs := PayoffValues(payoff, d, m, gauss, steps, paths);
      forall i | 0 <= i < |vs| ensures vs[i] >= 0.0 {
        PayoffValueAt(payoff, d, m, gauss, steps, paths, i);
      }
      SumNonNegative(vs);
      var mean := Sum(vs) / (paths as real);
      var discount := m.exp(-rate * maturity);
      assert mean >= 0.0 && discount > 0.0;
      assert discount * mean >= 0.0;
    }
  }

  /** `x` added to itself `n` times. */
  function Repeated(n: nat, x: real): real
  {
    if n == 0 then 0.0 else Repeated(n - 1, x) + x
  }

  /** Adding `x` to itself `n` times is multiplying it by `n`. */
  lemma {:induction false} RepeatedIsProduct(n: nat, x: real)
    ensures Repeated(n, x) == (n as real) * x
  {
    if n > 0 {
      RepeatedIsProduct(n - 1, x);
    }
  }

  /** The sums over `count` paths are the sums over the first `count - 1` plus the last payoff and its square. */
  lemma PayoffSumsStep(payoff: seq<real> -> real, d: Dynamics, m: MathLib, gauss: nat -> real, steps: nat, count: nat)
    requires count > 0
    ensures Sum(PayoffValues(payoff, d, m, gauss, steps, count)) ==
            Sum(PayoffValues(payoff, d, m, gauss, steps, count - 1)) + PathPayoff(payoff, d, m, gauss, steps, count - 1)
    ensures SumOfSquares(PayoffValues(payoff, d, m, gauss, steps, count)) ==
            SumOfSquares(PayoffValues(payoff, d, m, gauss, steps, count - 1)) +
            Square(PathPayoff(payoff, d, m, gauss, steps, count - 1))
  {
    SumsAppend(PayoffValues(payoff, d, m, gauss, steps, count - 1), PathPayoff(payoff, d, m, gauss, steps, count - 1));
  }

  /** A payoff that always returns `c` accumulates `n` copies of `c` and of its square over `n` paths. */
  lemma {:induction false} ConstantPayoffSums(payoff: seq<real> -> real, c: real, d: Dynamics, m: MathLib,
                                              gauss: nat -> real, steps: nat, count: nat)
    requires forall path :: payoff(path) == c
    ensures Sum(PayoffValues(payoff, d, m, gauss, steps, count)) == Repeated(count, c)
    ensures SumOfSquares(PayoffValues(payoff, d, m, gauss, steps, count)) == Repeated(count, Square(c))
  {
    if count > 0 {
      ConstantPayoffSums(payoff, c, d, m, gauss, steps, count - 1);
      PayoffSumsStep(payoff, d, m, gauss, steps, count);
    }
  }

  /** The estimate from `n` equal payoffs `c`: the discounted `c`, with no spread. */
  lemma EstimateOfConstant(paths: int, c: real, discount: real, m: MathLib)
    requires paths > 0 && m.sqrt(0.0) == 0.0
    ensures Estimate((paths as real) * c, (paths as real) * Square(c), paths, discount, m) == MonteCarloResult(discount * c, 0.0)
  {
    var n := paths as real;
    assert n * c / n == c;
    assert n * Square(c) / n == c * c;
    assert Variance(n * c, n * Square(c), paths) == 0.0;
    assert 0.0 / n == 0.0;
  }

  /** The estimate from `n` copies of `c` and `n` copies of its square: the discounted `c`, with no spread. */
  lemma EstimateOfRepeated(paths: int, c: real, discount: real, m: MathLib)
    requires paths > 0 && m.sqrt(0.0) == 0.0
    ensures Estimate(Repeated(paths, c), Repeated(paths, Square(c)), paths, discount, m) == MonteCarloResult(discount * c, 0.0)
  {
    RepeatedIsProduct(paths, c);
    RepeatedIsProduct(paths, Square(c));
    EstimateOfConstant(paths, c, discount, m);
  }

  /** Over any dynamics and stream, a payoff that always returns `c` is estimated at the discounted `c` with no spread. */
  lemma ConstantPayoffEstimate(payoff: seq<real> -> real, c: real, d: Dynamics, m: MathLib, gauss: nat -> real,
                               steps: nat, paths: int, discount: real)
    requires paths > 0 && m.sqrt(0.0) == 0.0
    requires forall path :: payoff(path) == c
    ensures Estimate(Sum(PayoffValues(payoff, d, m, gauss, steps, paths)),
                     SumOfSquares(PayoffValues(payoff, d, m, gauss, steps, paths)), paths, discount, m)
            == MonteCarloResult(discount * c, 0.0)
  {
    ConstantPayoffSums(payoff, c, d, m, gauss, steps, paths);
    EstimateOfRepeated(paths, c, discount, m);
  }

  /** A payoff that ignores the path has zero variance, so its estimate is exact: standard error zero, price the discounted payoff. */
  lemma ConstantPayoffIsExact(payoff: seq<real> -> real, c: real, spot: real, maturity: real, rate: real, volatility: real,
                              steps: int, paths: int, gauss: nat -> real, m: MathLib)
    requires m.sqrt(0.0) == 0.0
    requires forall path :: payoff(path) == c
    ensures MonteCarloPrice(payoff, spot, maturity, rate, volatility, steps, paths, gauss, m).Ok? ==>
              MonteCarloPrice(payoff, spot, maturity, rate, volatility, steps, paths, gauss, m).value ==
              MonteCarloResult(m.exp(-rate * maturity) * c, 0.0)
  {
    if steps > 0 && paths > 0 && maturity / (steps as real) >= 0.0 {
      ConstantPayoffEstimate(payoff, c, GbmDynamics(spot, maturity, rate, volatility, steps, m), m, gauss, steps, paths,
                             m.exp(-rate * maturity));
      MonteCarloPriceAccepted(payoff, spot, maturity, rate, volatility, steps, paths, gauss, m);
    }
  }
}
