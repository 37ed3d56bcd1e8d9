/** Metric conditions, shared by the phase watcher and the policy engine (internal/conditions/conditions.go). */
module Conditions {

  /** A float64 metric value; the reals stand for the finite ones. */
  datatype Value = NaN | Infinite | Finite(x: real)

  /** Indeterminate values and unknown operators never meet a condition. */
  predicate Met(value: Value, operator: string, threshold: real) {
    value.Finite? &&
    match operator
    case "gt" => value.x > threshold
    case "gte" => value.x >= threshold
    case "lt" => value.x < threshold
    case "lte" => value.x <= threshold
    case "eq" => value.x == threshold
    case _ => false
  }

  /** Exactly one of "lt", "eq" and "gt" holds, and "lte" and "gte" are the two that include equality. */
  lemma OperatorsOrder(x: real, t: real)
    ensures var v := Finite(x);
            && (Met(v, "lt", t) || Met(v, "eq", t) || Met(v, "gt", t))
            && !(Met(v, "lt", t) && Met(v, "eq", t)) && !(Met(v, "lt", t) && Met(v, "gt", t))
            && !(Met(v, "eq", t) && Met(v, "gt", t))
            && (Met(v, "lte", t) <==> Met(v, "lt", t) || Met(v, "eq", t))
            && (Met(v, "gte", t) <==> Met(v, "gt", t) || Met(v, "eq", t))
  {
  }

  /** Raising a value or lowering the threshold keeps "gt" and "gte"; the other way round keeps "lt" and "lte". */
  lemma OperatorsAreMonotone(x: real, y: real, t: real, u: real)
    requires x <= y && u <= t
    ensures Met(Finite(x), "gt", t) ==> Met(Finite(y), "gt", u)
    ensures Met(Finite(x), "gte", t) ==> Met(Finite(y), "gte", u)
    ensures Met(Finite(y), "lt", u) ==> Met(Finite(x), "lt", t)
    ensures Met(Finite(y), "lte", u) ==> Met(Finite(x), "lte", t)
    ensures x < y ==> Met(Finite(y), "gt", x) && Met(Finite(x), "lt", y) && Met(Finite(x), "eq", x)
  {
  }

  /** A value that is no finite number, or an operator that is none of the five, meets nothing. */
  lemma OtherwiseUnmet(v: Value, operator: string, t: real)
    requires !v.Finite? || operator !in ["gt", "gte", "lt", "lte", "eq"]
    ensures !Met(v, operator, t)
  {
  }
}
