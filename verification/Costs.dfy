/** Exact path costs with an explicit infinity.
    Costs are negated log-probabilities: a high cost is a bad one, and Inf is the
    tropical zero, the cost of an arc that may not be taken.  Rounding is left out:
    one unit stands for the resolution of the machine's floats. */
module Costs {
  datatype Cost = Fin(value: int) | Inf {

    predicate Le(other: Cost) {
      other.Inf? || (Fin? && value <= other.value)
    }

    predicate Lt(other: Cost) {
      Fin? && (other.Inf? || value < other.value)
    }

    function Plus(d: int): Cost {
      if Fin? then Fin(value + d) else Inf
    }

    function Add(other: Cost): Cost {
      if Fin? && other.Fin? then Fin(value + other.value) else Inf
    }

    function Min(other: Cost): Cost {
      if Le(other) then this else other
    }
  }

  /** The negation of the float test fabs(x - y) > delta: the difference of two
      infinities is not a number, and every comparison with that is false. */
  predicate Within(x: Cost, y: Cost, delta: nat) {
    (x.Inf? && y.Inf?) || (x.Fin? && y.Fin? && x.value - y.value <= delta && y.value - x.value <= delta)
  }
}
