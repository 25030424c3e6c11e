# Option pricing engines: a verified model

This project models the pricing core of a small option-pricing library and
its web form.

- **The Cox-Ross-Rubinstein binomial tree** (`binomial_option_price`). It
  validates the inputs and derives the lattice (`up`, `down = 1/up`, the
  one-step discount and the risk-neutral probability `p`). It then builds
  the maturity layer of intrinsic values by appending to a list, and rolls
  that buffer back to the root in place, writing node `i` of each earlier
  layer over entry `i`.
- **The Monte Carlo estimator** (`monte_carlo_option_price`). It validates
  the inputs and derives the per-step drift and diffusion of geometric
  Brownian motion. For each path it appends one simulated price per step to
  `[spot]`, evaluates the payoff on the path, and adds the payoff and its
  square to two running sums. The result is the discounted mean and the
  discounted standard error, with the variance floored at zero, in a
  `MonteCarloResult` record.
- **The web form helpers.** `_build_payoff` chooses a vanilla call, a
  vanilla put or a user expression from the form's mode. `_float_from_form`
  and `_int_from_form` read a numeric field, or return the default when the
  field is absent or empty.

Modules:
- `Numeric` and `Outcomes` (`common.dfy`) hold real helpers and the error
  type. The exceptions of input validation and of deriving the lattice
  become `Err` values:
  - `ValueError` for `steps <= 0`, for `paths <= 0`, for an unknown option
    type, and for `math.sqrt` of a negative time step;
  - `ZeroDivisionError` for `1 / up` and for the division by `up - down`.
- `Binomial` (`binomial.dfy`):
  - `NodeValue` is the recursive lattice value of node `i` in layer `step`.
    `TerminalLayer` and `RollBack` are the two loops, proved against it.
    `RollBack` works on an `array<real>` and ends with entry `k` holding
    node `k` of layer `k`, so entry 0 holds the root.
  - `BinomialOptionPrice` is the whole routine. `BinomialPrice` is its
    specification.
- `MonteCarlo` (`monte_carlo.dfy`):
  - `SimulatedPath` and `PayoffValues` define the paths and the payoff
    sequence. `SimulatePath` and `AccumulatePayoffs` are the loops, proved
    against them.
  - `MonteCarloOptionPrice` is the whole routine. `MonteCarloPrice` is its
    specification.
- `WebApp` (`web_app.dfy`): `BuildPayoff`, `Evaluate` and `FormField`.

External pieces are parameters:
- `math.exp` and `math.sqrt` are the two fields of a `MathLib` value.
  Properties that depend on them state what they assume, for example
  `exp(x) > 0`.
- The normal draws of `random.Random(seed).gauss(0, 1)` are a function
  `gauss: nat -> real`, where `gauss(n)` is the `n`-th draw. Path `j`
  reads draws `j * steps` to `j * steps + steps - 1`.
- The payoff callable is a function on paths.
- Text parsing by `float()`/`int()` is a `parse` function that returns
  `None` where Python raises `ValueError`.
- The restricted `eval` of a user expression is an `evalExpr` function.

What the code does not check, the model does not check either:
- The code does not check the maturity. A negative maturity fails inside
  `math.sqrt` in both engines. In `binomial_option_price` a zero maturity
  or a zero volatility makes `up = down`, and computing `p` divides by
  zero; `monte_carlo_option_price` accepts a zero maturity.
- `p` is not clamped to `[0, 1]`, so non-negativity of the binomial price
  is proved only for `0 ≤ p ≤ 1`.
- The code does not check what a payoff returns.
- A lattice with `up − down = 0` is the error `ZeroDivision`, as Python
  raises it. Non-finite values are not modelled.

## Model

| member | source | states |
|---|---|---|
| Binomial.StepLattice | binomial_option.py:59-62 | `up = exp(volatility·sqrt(dt))`, `up·down = 1`, `discount = exp(-r·dt)` and `p·(up − down) = exp(r·dt) − down`; it fails with a division by zero exactly when `up = 0` or `up − down = 0` (`up² = 1`) |
| Binomial.DeriveLattice | binomial_option.py:58-62 | the time step is `maturity/steps`; the `math.sqrt` domain error is raised exactly when the maturity is negative |
| Binomial.DegenerateLatticeFails | binomial_option.py:58-62 | with zero volatility or zero maturity, `up = down = 1`, so computing `p` raises the division by zero |
| Binomial.Intrinsic | binomial_option.py:68-71 | the exercise value is non-negative and is `max(S − K, 0)` for a call and `max(K − S, 0)` for a put |
| Binomial.TerminalLayer | binomial_option.py:64-72 | the maturity buffer has `steps + 1` entries, and entry `i` is the non-negative intrinsic value at price `spot·up^i·down^(steps−i)` |
| Binomial.RollBack | binomial_option.py:74-86 | after the in-place backward induction, entry `k` holds the lattice value of node `k` at layer `k`, and entry 0 holds the root value; within each pass, entries above `step` keep their values and `payoffs[i+1]` is read before it is overwritten (loop invariants) |
| Binomial.BinomialOptionPrice | binomial_option.py:22-88 | `steps <= 0` raises first, then an option type other than "call"/"put"; otherwise the result is the recursive lattice value of the root, or the lattice error |
| Binomial.Recombining | binomial_option.py:67 | node prices recombine: an up move from `(step, i)` reaches `(step+1, i+1)` and multiplies by `up`, and a down move reaches `(step+1, i)` and multiplies by `down` |
| Binomial.NodePricePositive | binomial_option.py:67 | with a positive spot, `up` and `down`, every node price `spot·up^i·down^(step−i)` is > 0 |
| Binomial.ContinuationMonotone | binomial_option.py:77 | with `0 ≤ p ≤ 1` and `discount ≥ 0`, the continuation value is monotone in both successor values |
| Binomial.NodeValueNonNegative | binomial_option.py:75-86 | with `0 ≤ p ≤ 1` and `discount ≥ 0`, every node value is ≥ 0 |
| Binomial.AmericanAtLeastExercise | binomial_option.py:78-84 | every American node is worth at least its immediate-exercise value |
| Binomial.AmericanAtLeastEuropean | binomial_option.py:75-86 | with `0 ≤ p ≤ 1` and `discount ≥ 0`, every American node value is ≥ the European value of the same node |
| Binomial.BinomialPriceNonNegative | binomial_option.py:22-88 | with a risk-neutral lattice, a returned binomial price is ≥ 0 |
| Binomial.BinomialAmericanAtLeastEuropean | binomial_option.py:22-88 | for identical other inputs, the American option is priced exactly when the European one is, and its price is at least the European price |
| MonteCarlo.SimulatedPath | binomial_option.py:142-146 | a path of `steps` steps has `steps + 1` prices and starts at the spot |
| MonteCarlo.SimulatePath | binomial_option.py:142-146 | the path built by appending one simulated price per step is the simulated path that reads draws `first`, `first + 1`, ... |
| MonteCarlo.PathPrefix | binomial_option.py:142-146 | appending never rewrites earlier prices: the first `k + 1` prices of a longer path are the `k`-step path |
| MonteCarlo.PathStep | binomial_option.py:143-146 | each price after the first is its predecessor times `exp(drift + diffusion·z)`, where `z` is the matching draw |
| MonteCarlo.PathPositive | binomial_option.py:142-146 | with a positive spot and a positive `exp`, every price on a path is > 0, since each step multiplies by a positive exponential |
| MonteCarlo.PayoffValueAt | binomial_option.py:141-148 | the `j`-th payoff is the payoff of the path that reads draws `j·steps` onwards |
| MonteCarlo.AccumulatePayoffs | binomial_option.py:138-150 | `payoff_sum` and `payoff_sq_sum` equal the in-order sums of the path payoffs and of their squares |
| MonteCarlo.Variance | binomial_option.py:152-153 | the variance is `max(E[X²] − E[X]², 0)`: it is ≥ 0, at least the raw value, and equal to either the raw value or 0 |
| MonteCarlo.MonteCarloOptionPrice | binomial_option.py:91-157 | `steps <= 0` raises first, then `paths <= 0`, then a negative time step; otherwise the result holds `discount·sum/paths` and `discount·sqrt(variance/paths)` over the payoffs of consecutive simulated paths |
| MonteCarlo.SumNonNegative | binomial_option.py:149 | a sum of non-negative payoffs is ≥ 0 |
| MonteCarlo.SumOfSquaresNonNegative | binomial_option.py:150 | the sum of squares is ≥ 0 |
| MonteCarlo.StandardErrorNonNegative | binomial_option.py:152-157 | with a positive `exp` and a `sqrt` that is non-negative on non-negative inputs, the returned standard error is ≥ 0 |
| MonteCarlo.PriceNonNegative | binomial_option.py:141-157 | a payoff that is never negative gives a price estimate that is never negative |
| MonteCarlo.ConstantPayoffSums | binomial_option.py:141-150 | with a constant payoff `c`, the two sums are `n` copies of `c` and `n` copies of `c²` |
| MonteCarlo.ConstantPayoffIsExact | binomial_option.py:91-157 | a payoff that ignores the path yields price `exp(−r·T)·c` and standard error 0 |
| WebApp.BuildPayoff | web_app.py:12-30 | mode "call" gives the call and mode "put" gives the put, both with the given strike; every other mode gives the user expression, and a missing expression becomes "" |
| WebApp.Evaluate | web_app.py:19-30 | a vanilla payoff has a value exactly when the path is non-empty (`path[-1]` raises otherwise); a user expression is valued by `eval` |
| WebApp.CallPayoffValue | web_app.py:19-20 | the call payoff is `max(path[-1] − strike, 0)`: it is ≥ 0 and ≥ `path[-1] − strike`, it equals that difference when positive, and 0 otherwise |
| WebApp.PutPayoffValue | web_app.py:21-22 | the put payoff is `max(strike − path[-1], 0)`: it is ≥ 0 and ≥ `strike − path[-1]`, it equals that difference when positive, and 0 otherwise |
| WebApp.PutCallParity | web_app.py:19-22 | on the same path and strike, the call payoff minus the put payoff is `path[-1] − strike` |
| WebApp.VanillaDependsOnlyOnLast | web_app.py:19-22 | a vanilla payoff depends only on the path's last price |
| WebApp.VanillaDefinedOnSimulatedPaths | web_app.py:19-22 | a vanilla payoff never raises on a simulated Monte Carlo path |
| WebApp.FormField | web_app.py:36-47 | an absent or empty field yields the default; any other text yields its parse, or the parse's `ValueError` |
| WebApp.FormFieldFilled | web_app.py:36-40 | a field filled with non-empty text reads as that text parses, whatever the default |
| WebApp.FormFieldCleared | web_app.py:43-47 | a cleared or missing field reads as its default |
| WebApp.FormFieldIgnoresOthers | web_app.py:37 | a field's value does not depend on the other fields of the form |

## Left out

- `math.exp`, `math.sqrt` and IEEE-754 rounding are not modelled. The engines work on unbounded reals, with `exp` and `sqrt` as given functions. Overflow of `exp` or of `**` (`OverflowError`, infinities, NaN) is not modelled.
- No numeric values are proved, such as particular prices or convergence to Black–Scholes.
- `random.Random(seed)` and its reproducibility are not modelled. The normal draws are a given stream.
- Statistical claims are not modelled: the standard error shrinking like `1/sqrt(paths)`, agreement with the binomial price within a few standard errors, and the ordering of different payoffs. These are probabilistic facts about the estimator, not facts of its code.
- `binomial_option_price` does not clamp `p` to `[0, 1]`. Non-negativity and American ≥ European are therefore lemmas with `0 ≤ p ≤ 1` and `discount ≥ 0` as hypotheses, not promises of the routine.
- Binomial.BinomialOptionPrice: does not state that no buffer is allocated on the error paths. The method returns before allocating, but its contract speaks only of the result.
- Binomial.TerminalLayer: the Python list is built by appending and then overwritten in place. The model builds it as a sequence and copies it into an array before the backward induction.
- Binomial.BinomialOptionPrice: the Python defaults `option_type="call"` and `american=False` are not modelled; every argument is passed explicitly.
- MonteCarlo.MonteCarloOptionPrice: the keyword-only calling convention and the defaults `steps=1`, `paths=10_000` and `seed=None` are not modelled; every argument is passed positionally and explicitly, and the seed is replaced by the draw stream `gauss`.
- MonteCarlo.MonteCarloOptionPrice: the payoff callable is taken to return a number on every path. Exceptions raised inside a user payoff are not modelled.
- The user-expression payoff is not modelled: `eval` of the form's expression is dynamic code execution. It is the `evalExpr` parameter of `WebApp.Evaluate`.
- The command-line interface and demo (`binomial_option.py:160-236`) are not modelled. They are argument parsing and printing.
- The Flask application, its route, its HTML template and the rendering of a 95% interval (`web_app.py:33-35, 50-217`) are not modelled. They are web plumbing.
- `float()` and `int()` text parsing are the `parse` parameter of `WebApp.FormField`.
