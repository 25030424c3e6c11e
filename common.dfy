/** Real-number helpers shared by both pricing engines. */
module Numeric {

  /**
   * The two `math` functions the engines call. Dafny cannot compute
   * either, so each engine receives them as values and every property
   * that depends on them states what it assumes of them.
   */
  datatype MathLib = MathLib(exp: real -> real, sqrt: real -> real)

  /** What the real `math.exp` and `math.sqrt` guarantee that the proofs rely on. */
  ghost predicate WellBehaved(m: MathLib)
  {
    && (forall x :: m.exp(x) > 0.0)
    && (forall x :: x >= 0.0 ==> m.sqrt(x) >= 0.0)
    && m.sqrt(0.0) == 0.0
  }

  /** Python's `max(a, b)` on two reals. */
  function Max(a: real, b: real): (r: real)
    ensures r >= a && r >= b
    ensures r == a || r == b
  {
    if a >= b then a else b
  }

  /** Python's `x ** 2` on a real. */
  function Square(x: real): (r: real)
    ensures r >= 0.0
  {
    x * x
  }

  /** `x ** n` for a real base and a natural exponent. */
  function Pow(x: real, n: nat): (r: real)
  {
    if n == 0 then 1.0 else x * Pow(x, n - 1)
  }

  /** A positive base keeps every power positive. */
  lemma {:induction false} PowPositive(x: real, n: nat)
    requires x > 0.0
    ensures Pow(x, n) > 0.0
  {
    if n > 0 {
      PowPositive(x, n - 1);
      assert Pow(x, n) == x * Pow(x, n - 1);
    }
  }
}

/** The failures the pricing functions raise, and optional values, as data. */
module Outcomes {

  /**
   * Every way a pricing call can fail before returning a number:
   * the two `ValueError`s of input validation, the `ValueError` that
   * `math.sqrt` raises on a negative argument, and the `ZeroDivisionError`
   * of `1 / up` or of dividing by `up - down`.
   */
  datatype PricingError =
    | StepsNotPositive
    | PathsNotPositive
    | InvalidOptionType
    | MathDomainError
    | ZeroDivision

  datatype Result<T> = Ok(value: T) | Err(error: PricingError)

  datatype Option<T> = None | Some(value: T)
}
