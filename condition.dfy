/** internal/config/blueprint/service/condition.go: the condition under
    which a span's conditional effects apply. */
module ConfigCondition {
  import opened Wrappers
  import DomainTask

  /** `service.Probabilistic`. Go's float64 is modelled as a real, so NaN is
      not represented. */
  datatype Probabilistic = Probabilistic(threshold: real)

  /** `service.Condition`: a kind and, for the probabilistic kind, a pointer
      to its threshold. */
  datatype Condition = Condition(kind: string, probabilistic: Option<Probabilistic>)

  /** A threshold a probability can be compared against. */
  predicate IsProbability(p: real)
  {
    0.0 <= p <= 1.0
  }

  /** `Condition.To`: exact-string dispatch on the kind. A probabilistic
      condition needs a threshold that is a probability; "childMarkedAsFailed"
      means at least one child was marked as failed; any other kind is an
      error naming it. */
  function To(c: Condition): (r: Result<DomainTask.Condition>)
    ensures r.Ok? <==>
              || (c.kind == "probabilistic" && c.probabilistic.Some? && IsProbability(c.probabilistic.value.threshold))
              || c.kind == "childMarkedAsFailed"
    ensures r.Ok? && c.kind == "probabilistic" ==> r.value == DomainTask.Probabilistic(c.probabilistic.value.threshold)
    ensures c.kind == "childMarkedAsFailed" ==>
              r == Ok(DomainTask.AtLeast(1, DomainTask.Child(DomainTask.MarkedAsFailed)))
    ensures c.kind == "probabilistic" && c.probabilistic.None? ==>
              r == Err("probabilistic condition requires a threshold")
    ensures c.kind == "probabilistic" && c.probabilistic.Some? && !IsProbability(c.probabilistic.value.threshold) ==>
              r == Err("probabilistic condition threshold must be between 0 and 1")
    ensures c.kind != "probabilistic" && c.kind != "childMarkedAsFailed" ==>
              r == Err("unknown condition type: " + c.kind)
  {
    match c.kind
    case "probabilistic" =>
      if c.probabilistic.None? then Err("probabilistic condition requires a threshold")
      else if c.probabilistic.value.threshold < 0.0 || c.probabilistic.value.threshold > 1.0 then
        Err("probabilistic condition threshold must be between 0 and 1")
      else Ok(DomainTask.Probabilistic(c.probabilistic.value.threshold))
    case "childMarkedAsFailed" => Ok(DomainTask.AtLeast(1, DomainTask.Child(DomainTask.MarkedAsFailed)))
    case _ => Err("unknown condition type: " + c.kind)
  }

  /** The bounds 0 and 1 are accepted, anything just outside is not, and a
      kind that differs only in case is unknown. */
  lemma ConditionExamples()
    ensures To(Condition("probabilistic", Some(Probabilistic(0.0)))) == Ok(DomainTask.Probabilistic(0.0))
    ensures To(Condition("probabilistic", Some(Probabilistic(1.0)))) == Ok(DomainTask.Probabilistic(1.0))
    ensures To(Condition("probabilistic", Some(Probabilistic(-0.1)))).Err?
    ensures To(Condition("probabilistic", Some(Probabilistic(1.5)))).Err?
    ensures To(Condition("Probabilistic", Some(Probabilistic(0.5)))) == Err("unknown condition type: Probabilistic")
  {
  }
}
