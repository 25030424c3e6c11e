/**
 * The Cox-Ross-Rubinstein binomial tree: input validation, the lattice
 * parameters, the terminal layer of intrinsic values and the in-place
 * backward induction over one buffer.
 */
module Binomial {
  import opened Numeric
  import opened Outcomes

  /** The per-step quantities every node of the tree shares. */
  datatype Lattice = Lattice(up: real, down: real, discount: real, p: real)

  /**
   * Computes `up`, `down = 1/up`, the one-step discount factor and the
   * risk-neutral probability `p` from the time step `dt`, failing where
   * Python's division would raise `ZeroDivisionError`.
   */
  function StepLattice(dt: real, rate: real, volatility: real, m: MathLib): (r: Result<Lattice>)
    ensures var up := m.exp(volatility * m.sqrt(dt));
      r.Err? <==> up == 0.0 || up * up == 1.0
    ensures r.Err? ==> r.error == ZeroDivision
    ensures r.Ok? ==>
      var lat := r.value;
      && lat.up == m.exp(volatility * m.sqrt(dt))
      && lat.up * lat.down == 1.0
      && lat.up != lat.down
      && lat.discount == m.exp(-rate * dt)
      && lat.p * (lat.up - lat.down) == m.exp(rate * dt) - lat.down
  {
    var up := m.exp(volatility * m.sqrt(dt));
    if up == 0.0 then
      Err(ZeroDivision)
    else
      var down := 1.0 / up;
      var discount := m.exp(-rate * dt);
      assert up - down == 0.0 <==> up * up == 1.0 by {
        assert up * down == 1.0;
        assert up * (up - down) == up * up - 1.0;
      }
      if up - down == 0.0 then
        Err(ZeroDivision)
      else
        Ok(Lattice(up, down, discount, (m.exp(rate * dt) - down) / (up - down)))
  }

  /**
   * Splits the maturity into `steps` time steps and derives the lattice;
   * a negative time step is the domain error `math.sqrt` raises.
   */
  function DeriveLattice(maturity: real, rate: real, volatility: real, steps: int, m: MathLib): (r: Result<Lattice>)
    requires steps > 0
    ensures r == Err(MathDomainError) <==> maturity < 0.0
    ensures maturity >= 0.0 ==> r == StepLattice(maturity / (steps as real), rate, volatility, m)
  {
    if maturity / (steps as real) < 0.0 then
      Err(MathDomainError)
    else
      StepLattice(maturity / (steps as real), rate, volatility, m)
  }

  /**
   * A zero volatility or a zero maturity makes `up = exp(0) = 1 = down`, so
   * computing `p` divides by zero.
   */
  lemma DegenerateLatticeFails(maturity: real, rate: real, volatility: real, steps: int, m: MathLib)
    requires steps > 0 && maturity >= 0.0
    requires volatility == 0.0 || maturity == 0.0
    requires m.exp(0.0) == 1.0 && m.sqrt(0.0) == 0.0
    ensures DeriveLattice(maturity, rate, volatility, steps, m) == Err(ZeroDivision)
  {
    var dt := maturity / (steps as real);
    assert volatility * m.sqrt(dt) == 0.0;
    assert StepLattice(dt, rate, volatility, m).Err?;
  }

  /** One validated pricing problem: contract terms plus its lattice. */
  datatype Tree = Tree(spot: real, strike: real, steps: nat, isCall: bool, american: bool, lattice: Lattice)

  /** The underlying's price at node `i` of time layer `step`: `i` up moves and `step - i` down moves. */
  function NodePrice(t: Tree, step: nat, i: nat): real
    requires i <= step
  {
    t.spot * Pow(t.lattice.up, i) * Pow(t.lattice.down, step - i)
  }

  /** The value of exercising at underlying price `s`. */
  function Intrinsic(isCall: bool, s: real, strike: real): (r: real)
    ensures r >= 0.0
    ensures isCall ==> r >= s - strike && (r == 0.0 || r == s - strike)
    ensures !isCall ==> r >= strike - s && (r == 0.0 || r == strike - s)
  {
    if isCall then Max(s - strike, 0.0) else Max(strike - s, 0.0)
  }

  /** The value of exercising at node `i` of layer `step`. */
  function Exercise(t: Tree, step: nat, i: nat): real
    requires i <= step
  {
    Intrinsic(t.isCall, NodePrice(t, step, i), t.strike)
  }

  /** The discounted risk-neutral expectation of the two successor values. */
  function Continuation(lat: Lattice, upValue: real, downValue: real): real
  {
    lat.discount * (lat.p * upValue + (1.0 - lat.p) * downValue)
  }

  /**
   * The value of the option at node `i` of layer `step`, defined by
   * recursion over the lattice: intrinsic value at maturity, the
   * continuation value before it, and for American exercise the larger of
   * continuation and immediate exercise.
   */
  function NodeValue(t: Tree, step: nat, i: nat): real
    requires i <= step <= t.steps
    decreases t.steps - step
  {
    if step == t.steps then
      Exercise(t, step, i)
    else if t.american then
      Max(Continuation(t.lattice, NodeValue(t, step + 1, i + 1), NodeValue(t, step + 1, i)), Exercise(t, step, i))
    else
      Continuation(t.lattice, NodeValue(t, step + 1, i + 1), NodeValue(t, step + 1, i))
  }

  /**
   * The arithmetic of one node update, written as the buffer loop writes it,
   * yields the node's value once the two entries it reads hold the later layer.
   */
  lemma NodeUpdate(t: Tree, step: nat, i: nat, upValue: real, downValue: real, continuation: real, exercise: real)
    requires i <= step < t.steps
    requires upValue == NodeValue(t, step + 1, i + 1) && downValue == NodeValue(t, step + 1, i)
    requires continuation == Continuation(t.lattice, upValue, downValue)
    requires t.american ==> exercise == Exercise(t, step, i)
    ensures NodeValue(t, step, i) == if t.american then Max(continuation, exercise) else continuation
  {
    if t.american {
      assert NodeValue(t, step, i) == Max(continuation, exercise);
    }
  }

  /** The probabilities and discount factor under which prices cannot turn negative. */
  predicate RiskNeutral(lat: Lattice)
  {
    0.0 <= lat.p <= 1.0 && lat.discount >= 0.0
  }

  /** Builds the maturity layer by appending one intrinsic value per node. */
  method TerminalLayer(t: Tree) returns (payoffs: seq<real>)
    ensures |payoffs| == t.steps + 1
    ensures forall i :: 0 <= i < |payoffs| ==>
      payoffs[i] >= 0.0 && payoffs[i] == Intrinsic(t.isCall, NodePrice(t, t.steps, i), t.strike)
  {
    payoffs := [];
    var i := 0;
    while i < t.steps + 1
      invariant 0 <= i <= t.steps + 1 && |payoffs| == i
      invariant forall k :: 0 <= k < i ==> payoffs[k] == Intrinsic(t.isCall, NodePrice(t, t.steps, k), t.strike)
    {
      var spotT := NodePrice(t, t.steps, i);
      var payoff;
      if t.isCall {
        payoff := Max(spotT - t.strike, 0.0);
      } else {
        payoff := Max(t.strike - spotT, 0.0);
      }
      payoffs := payoffs + [payoff];
      i := i + 1;
    }
  }

  /**
   * Rolls the buffer back from maturity to the root in place. Pass `step`
   * overwrites entries `0..step` in ascending order, so entry `i + 1` still
   * holds the later layer's value when node `i` reads it, and no entry above
   * `step` is written. Hence on return entry `k` holds the value of node `k`
   * of layer `k`, the last layer that wrote it, and entry 0 the root.
   */
  method RollBack(t: Tree, payoffs: array<real>)
    requires payoffs.Length == t.steps + 1
    requires forall k :: 0 <= k < payoffs.Length ==> payoffs[k] == NodeValue(t, t.steps, k)
    modifies payoffs
    ensures forall k :: 0 <= k < payoffs.Length ==> payoffs[k] == NodeValue(t, k, k)
  {
    var step := t.steps;
    while step > 0
      invariant 0 <= step <= t.steps
      invariant forall k :: 0 <= k <= step ==> payoffs[k] == NodeValue(t, step, k)
      invariant forall k :: step < k < payoffs.Length ==> payoffs[k] == NodeValue(t, k, k)
    {
      step := step - 1;
      ghost var before := payoffs[..];
      var i := 0;
      while i < step + 1
        invariant 0 <= i <= step + 1
        invariant forall k :: 0 <= k < i ==> payoffs[k] == NodeValue(t, step, k)
        invariant forall k :: i <= k < payoffs.Length ==> payoffs[k] == before[k]
        invariant forall k :: 0 <= k <= step + 1 ==> before[k] == NodeValue(t, step + 1, k)
        invariant forall k :: step + 1 < k < payoffs.Length ==> before[k] == NodeValue(t, k, k)
      {
        var continuation := Continuation(t.lattice, payoffs[i + 1], payoffs[i]);
        if t.american {
          var spotT := NodePrice(t, step, i);
          var exercise;
          if t.isCall {
            exercise := Max(spotT - t.strike, 0.0);
          } else {
            exercise := Max(t.strike - spotT, 0.0);
          }
          NodeUpdate(t, step, i, payoffs[i + 1], payoffs[i], continuation, exercise);
          payoffs[i] := Max(continuation, exercise);
        } else {
          NodeUpdate(t, step, i, payoffs[i + 1], payoffs[i], continuation, 0.0);
          payoffs[i] := continuation;
        }
        i := i + 1;
      }
    }
  }

  /** The result `binomial_option_price` returns or the error it raises. */
  function BinomialPrice(spot: real, strike: real, maturity: real, rate: real, volatility: real,
                         steps: int, optionType: string, american: bool, m: MathLib): Result<real>
  {
    if steps <= 0 then
      Err(StepsNotPositive)
    else if optionType != "call" && optionType != "put" then
      Err(InvalidOptionType)
    else
      match DeriveLattice(maturity, rate, volatility, steps, m)
      case Err(e) => Err(e)
      case Ok(lat) => Ok(NodeValue(Tree(spot, strike, steps, optionType == "call", american, lat), 0, 0))
  }

  /**
   * Prices a European or American call or put: validates the inputs,
   * builds the terminal layer and rolls it back to the root in place.
   */
  method BinomialOptionPrice(spot: real, strike: real, maturity: real, rate: real, volatility: real,
                             steps: int, optionType: string, american: bool, m: MathLib)
    returns (r: Result<real>)
    ensures steps <= 0 ==> r == Err(StepsNotPositive)
    ensures steps > 0 && optionType !in {"call", "put"} ==> r == Err(InvalidOptionType)
    ensures r == BinomialPrice(spot, strike, maturity, rate, volatility, steps, optionType, american, m)
  {
    if steps <= 0 {
      return Err(StepsNotPositive);
    }
    if optionType != "call" && optionType != "put" {
      return Err(InvalidOptionType);
    }
    var lat := DeriveLattice(maturity, rate, volatility, steps, m);
    if lat.Err? {
      return Err(lat.error);
    }
    var t := Tree(spot, strike, steps, optionType == "call", american, lat.value);
    var terminal := TerminalLayer(t);
    var payoffs := new real[|terminal|](k requires 0 <= k < |terminal| => terminal[k]);
    RollBack(t, payoffs);
    return Ok(payoffs[0]);
  }

  /** An up move from node `(step, i)` lands on `(step + 1, i + 1)`, a down move on `(step + 1, i)`. */
  lemma Recombining(t: Tree, step: nat, i: nat)
    requires i <= step
    ensures NodePrice(t, step + 1, i + 1) == NodePrice(t, step, i) * t.lattice.up
    ensures NodePrice(t, step + 1, i) == NodePrice(t, step, i) * t.lattice.down
  {
    var u, d := t.lattice.up, t.lattice.down;
    assert Pow(u, i + 1) == u * Pow(u, i);
    assert Pow(d, step + 1 - i) == d * Pow(d, step - i);
  }

  /** With a positive spot and positive moves, every node price is positive. */
  lemma NodePricePositive(t: Tree, step: nat, i: nat)
    requires i <= step
    requires t.spot > 0.0 && t.lattice.up > 0.0 && t.lattice.down > 0.0
    ensures NodePrice(t, step, i) > 0.0
  {
    PowPositive(t.lattice.up, i);
    PowPositive(t.lattice.down, step - i);
    assert t.spot * Pow(t.lattice.up, i) > 0.0;
  }

  /** The continuation value is monotone in both successor values when the lattice is risk-neutral. */
  lemma ContinuationMonotone(lat: Lattice, u1: real, d1: real, u2: real, d2: real)
    requires RiskNeutral(lat)
    requires u1 >= u2 && d1 >= d2
    ensures Continuation(lat, u1, d1) >= Continuation(lat, u2, d2)
  {
    var p := lat.p;
    assert p * (u1 - u2) >= 0.0;
    assert (1.0 - p) * (d1 - d2) >= 0.0;
    var gap := p * (u1 - u2) + (1.0 - p) * (d1 - d2);
    assert (p * u1 + (1.0 - p) * d1) - (p * u2 + (1.0 - p) * d2) == gap;
    assert lat.discount * gap >= 0.0;
  }

  /** Every node value is non-negative when `0 <= p <= 1` and the discount factor is non-negative. */
  lemma {:induction false} NodeValueNonNegative(t: Tree, step: nat, i: nat)
    requires i <= step <= t.steps
    requires RiskNeutral(t.lattice)
    ensures NodeValue(t, step, i) >= 0.0
    decreases t.steps - step
  {
    if step < t.steps {
      NodeValueNonNegative(t, step + 1, i + 1);
      NodeValueNonNegative(t, step + 1, i);
      ContinuationMonotone(t.lattice, NodeValue(t, step + 1, i + 1), NodeValue(t, step + 1, i), 0.0, 0.0);
    }
  }

  /** An American node is worth at least what exercising it immediately pays. */
  lemma AmericanAtLeastExercise(t: Tree, step: nat, i: nat)
    requires i <= step <= t.steps
    requires t.american
    ensures NodeValue(t, step, i) >= Intrinsic(t.isCall, NodePrice(t, step, i), t.strike)
  {
  }

  /** Early exercise never lowers a node's value, when `0 <= p <= 1` and the discount factor is non-negative. */
  lemma {:induction false} AmericanAtLeastEuropean(t: Tree, step: nat, i: nat)
    requires i <= step <= t.steps
    requires RiskNeutral(t.lattice)
    ensures NodeValue(t.(american := true), step, i) >= NodeValue(t.(american := false), step, i)
    decreases t.steps - step
  {
    var a, e := t.(american := true), t.(american := false);
    if step < t.steps {
      AmericanAtLeastEuropean(t, step + 1, i + 1);
      AmericanAtLeastEuropean(t, step + 1, i);
      ContinuationMonotone(t.lattice, NodeValue(a, step + 1, i + 1), NodeValue(a, step + 1, i),
                           NodeValue(e, step + 1, i + 1), NodeValue(e, step + 1, i));
    }
  }

  /** `binomial_option_price` returns a non-negative price whenever its lattice is risk-neutral. */
  lemma BinomialPriceNonNegative(spot: real, strike: real, maturity: real, rate: real, volatility: real,
                                 steps: int, optionType: string, american: bool, m: MathLib)
    requires steps > 0
    requires DeriveLattice(maturity, rate, volatility, steps, m).Ok?
    requires RiskNeutral(DeriveLattice(maturity, rate, volatility, steps, m).value)
    ensures BinomialPrice(spot, strike, maturity, rate, volatility, steps, optionType, american, m).Ok? ==>
            BinomialPrice(spot, strike, maturity, rate, volatility, steps, optionType, american, m).value >= 0.0
  {
    var lat := DeriveLattice(maturity, rate, volatility, steps, m).value;
    NodeValueNonNegative(Tree(spot, strike, steps, optionType == "call", american, lat), 0, 0);
  }

  /** With every other input equal, the American price is at least the European price. */
  lemma BinomialAmericanAtLeastEuropean(spot: real, strike: real, maturity: real, rate: real, volatility: real,
                                        steps: int, optionType: string, m: MathLib)
    requires steps > 0
    requires DeriveLattice(maturity, rate, volatility, steps, m).Ok?
    requires RiskNeutral(DeriveLattice(maturity, rate, volatility, steps, m).value)
    ensures BinomialPrice(spot, strike, maturity, rate, volatility, steps, optionType, true, m).Ok? <==>
            BinomialPrice(spot, strike, maturity, rate, volatility, steps, optionType, false, m).Ok?
    ensures BinomialPrice(spot, strike, maturity, rate, volatility, steps, optionType, true, m).Ok? ==>
            BinomialPrice(spot, strike, maturity, rate, volatility, steps, optionType, true, m).value >=
            BinomialPrice(spot, strike, maturity, rate, volatility, steps, optionType, false, m).value
  {
    var lat := DeriveLattice(maturity, rate, volatility, steps, m).value;
    AmericanAtLeastEuropean(Tree(spot, strike, steps, optionType == "call", false, lat), 0, 0);
  }
}
