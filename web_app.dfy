/**
 * The pricing form's helpers: choosing the payoff a price path is valued
 * with, and reading a numeric form field that falls back to a default.
 */
module WebApp {
  import opened Numeric
  import opened Outcomes
  import MonteCarlo

  /**
   * The payoff the form selects: a vanilla call or put on the last price of
   * the path, or a user expression in the variable `path`.
   */
  datatype Payoff =
    | CallPayoff(strike: real)
    | PutPayoff(strike: real)
    | CustomPayoff(expression: string)

  /**
   * The payoff for a mode string: `"call"` and `"put"` are tested in that
   * order, and every other mode selects the user expression, an absent
   * expression standing for the empty one.
   */
  function BuildPayoff(mode: string, strike: real, customExpr: Option<string>): (p: Payoff)
    ensures p.CallPayoff? <==> mode == "call"
    ensures p.PutPayoff? <==> mode == "put"
    ensures p.CustomPayoff? <==> mode != "call" && mode != "put"
    ensures !p.CustomPayoff? ==> p.strike == strike
    ensures p.CustomPayoff? ==> p.expression == (if customExpr.Some? then customExpr.value else "")
  {
    if mode == "call" then
      CallPayoff(strike)
    else if mode == "put" then
      PutPayoff(strike)
    else
      CustomPayoff(if customExpr.Some? then customExpr.value else "")
  }

  /**
   * The value of a payoff on a path, or `None` where evaluating it raises.
   * A vanilla payoff reads `path[-1]`, which raises on an empty path; a user
   * expression is handed to `evalExpr`, the restricted `eval` followed by
   * `float`, with `None` for any exception it raises.
   */
  function Evaluate(p: Payoff, path: seq<real>, evalExpr: (string, seq<real>) -> Option<real>): (r: Option<real>)
    ensures !p.CustomPayoff? ==> (r.Some? <==> |path| > 0)
    ensures p.CustomPayoff? ==> r == evalExpr(p.expression, path)
  {
    match p
    case CallPayoff(strike) =>
      if |path| == 0 then None else Some(Max(path[|path| - 1] - strike, 0.0))
    case PutPayoff(strike) =>
      if |path| == 0 then None else Some(Max(strike - path[|path| - 1], 0.0))
    case CustomPayoff(expression) =>
      evalExpr(expression, path)
  }

  /** On a non-empty path the call pays the excess of the last price over the strike, and nothing when there is none. */
  lemma CallPayoffValue(strike: real, customExpr: Option<string>, path: seq<real>, evalExpr: (string, seq<real>) -> Option<real>)
    requires |path| > 0
    ensures Evaluate(BuildPayoff("call", strike, customExpr), path, evalExpr).Some?
    ensures Evaluate(BuildPayoff("call", strike, customExpr), path, evalExpr).value >= 0.0
    ensures Evaluate(BuildPayoff("call", strike, customExpr), path, evalExpr).value >= path[|path| - 1] - strike
    ensures path[|path| - 1] > strike ==>
              Evaluate(BuildPayoff("call", strike, customExpr), path, evalExpr).value == path[|path| - 1] - strike
    ensures path[|path| - 1] <= strike ==>
              Evaluate(BuildPayoff("call", strike, customExpr), path, evalExpr).value == 0.0
  {
  }

  /** On a non-empty path the put pays the excess of the strike over the last price, and nothing when there is none. */
  lemma PutPayoffValue(strike: real, customExpr: Option<string>, path: seq<real>, evalExpr: (string, seq<real>) -> Option<real>)
    requires |path| > 0
    ensures Evaluate(BuildPayoff("put", strike, customExpr), path, evalExpr).Some?
    ensures Evaluate(BuildPayoff("put", strike, customExpr), path, evalExpr).value >= 0.0
    ensures Evaluate(BuildPayoff("put", strike, customExpr), path, evalExpr).value >= strike - path[|path| - 1]
    ensures strike > path[|path| - 1] ==>
              Evaluate(BuildPayoff("put", strike, customExpr), path, evalExpr).value == strike - path[|path| - 1]
    ensures strike <= path[|path| - 1] ==>
              Evaluate(BuildPayoff("put", strike, customExpr), path, evalExpr).value == 0.0
  {
  }

  /** Put-call parity of the payoffs: on the same path and strike, call minus put is the last price minus the strike. */
  lemma PutCallParity(strike: real, path: seq<real>, evalExpr: (string, seq<real>) -> Option<real>)
    requires |path| > 0
    ensures Evaluate(CallPayoff(strike), path, evalExpr).value - Evaluate(PutPayoff(strike), path, evalExpr).value
            == path[|path| - 1] - strike
  {
  }

  /** A vanilla payoff sees only the last price: two non-empty paths that end at the same price are paid the same. */
  lemma VanillaDependsOnlyOnLast(p: Payoff, path1: seq<real>, path2: seq<real>, evalExpr: (string, seq<real>) -> Option<real>)
    requires !p.CustomPayoff?
    requires |path1| > 0 && |path2| > 0 && path1[|path1| - 1] == path2[|path2| - 1]
    ensures Evaluate(p, path1, evalExpr) == Evaluate(p, path2, evalExpr)
  {
  }

  /** Every simulated path has a last price, so a vanilla payoff never raises on one. */
  lemma VanillaDefinedOnSimulatedPaths(p: Payoff, d: MonteCarlo.Dynamics, m: MathLib, gauss: nat -> real, first: nat,
                                       steps: nat, evalExpr: (string, seq<real>) -> Option<real>)
    requires !p.CustomPayoff?
    ensures Evaluate(p, MonteCarlo.SimulatedPath(d, m, gauss, first, steps), evalExpr).Some?
  {
  }

  /**
   * A numeric form field: the default when the field is absent or empty,
   * otherwise the text parsed by `parse` (`float` or `int`), with `None`
   * where the parse raises `ValueError`.
   */
  function FormField<T>(form: map<string, string>, name: string, default: T, parse: string -> Option<T>): (r: Option<T>)
    ensures name !in form || form[name] == "" ==> r == Some(default)
    ensures name in form && form[name] != "" ==> r == parse(form[name])
  {
    if name !in form || form[name] == "" then Some(default) else parse(form[name])
  }

  /** Filling in a field with non-empty text makes it read exactly as that text parses, whatever the default. */
  lemma FormFieldFilled<T>(form: map<string, string>, name: string, text: string, default: T, parse: string -> Option<T>)
    requires text != ""
    ensures FormField(form[name := text], name, default, parse) == parse(text)
  {
  }

  /** Clearing a field, or leaving it out, restores its default. */
  lemma FormFieldCleared<T>(form: map<string, string>, name: string, default: T, parse: string -> Option<T>)
    ensures FormField(form[name := ""], name, default, parse) == Some(default)
    ensures FormField(form - {name}, name, default, parse) == Some(default)
  {
  }

  /** A field reads the same whatever the other fields of the form hold. */
  lemma FormFieldIgnoresOthers<T>(form: map<string, string>, name: string, other: string, text: string,
                                  default: T, parse: string -> Option<T>)
    requires other != name
    ensures FormField(form[other := text], name, default, parse) == FormField(form, name, default, parse)
  {
  }
}
