/** Values shared by every module: optional values and the numbers a stored row may hold. */
module Basics {

  datatype Option<+T> = None | Some(value: T) {
    function GetOr(default: T): T {
      if Some? then value else default
    }
  }

  /** What `Number(x)` can give: a stored field is any of these, a usable one is finite. */
  datatype Number = NaN | Infinity | NegativeInfinity | Finite(value: real) {

    /** A whole number of at least 1: what every month number must be. */
    predicate WholeMonth() {
      Finite? && value.Floor as real == value && value >= 1.0
    }

    /** A positive amount that is a number. */
    predicate Payable() {
      Finite? && value > 0.0
    }
  }

  function Ceil(x: real): int {
    -((-x).Floor)
  }

  function MaxInt(a: int, b: int): int {
    if a < b then b else a
  }

  function MinInt(a: int, b: int): int {
    if a < b then a else b
  }

  function MaxReal(a: real, b: real): real {
    if a < b then b else a
  }

  // ---- Sequences put together ----

  lemma {:induction false} Regrouped<T>(a: seq<T>, b: seq<T>, c: seq<T>)
    ensures a + (b + c) == a + b + c
  {
  }

  lemma {:induction false} LastTaken<T>(a: seq<T>, b: seq<T>)
    requires b != []
    ensures var n := |b| - 1; b == b[..n] + [b[n]] && a + b == a + b[..n] + [b[n]]
  {
  }
}
