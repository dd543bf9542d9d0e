/** The domain values the configuration is converted into (Go packages
    `internal/tracesimulator/model/task` and its `taskduration` sub-package).
    Only the shapes the conversion builds are modelled, together with the
    delay behaviour as exercised by internal/tracesimulator/model/task/delay_test.go. */
module DomainTask {
  import opened Wrappers

  /** One second in nanoseconds, the unit of Go's `time.Duration`. */
  const Second: int := 1_000_000_000

  /** `taskduration.Expression`: a fixed span of time, or a fraction of a
      base duration that is only known when the expression is resolved. */
  datatype Expression = Absolute(nanos: int) | Relative(factor: real)

  /** `task.ExternalID`: a symbolic name another span can refer to. */
  datatype ExternalId = ExternalId(value: string)

  /** `task.Delay` and `task.Duration`: wrappers around an expression. */
  datatype Delay = Delay(expression: Expression)
  datatype Duration = Duration(expression: Expression)

  /** What `Delay.Resolve` may be handed (its parameter has Go type `any`):
      nothing, a pointer to a base duration, or a value of some other type. */
  datatype Context = NilContext | DurationContext(nanos: int) | OtherContext

  /** `task.NewDelay`: a nil expression is refused (the message is assumed,
      the tests only check that there is an error); a non-nil one is handed to the constructor's
      own check, whose code is not part of this model and which the
      conversions receive as a parameter. */
  function NewDelay(expression: Option<Expression>, check: Expression -> Outcome): (r: Result<Delay>)
    ensures expression.None? ==> r == Err("delay expression cannot be nil")
    ensures expression.Some? ==> (r.Ok? <==> check(expression.value).Pass?)
    ensures expression.Some? && r.Ok? ==> r.value.expression == expression.value
    ensures expression.Some? && r.Err? ==> r.error == check(expression.value).error
  {
    match expression
    case None => Err("delay expression cannot be nil")
    case Some(e) =>
      match check(e)
      case Fail(err) => Err(err)
      case Pass => Ok(Delay(e))
  }

  /** `factor * base` converted back to a whole number of nanoseconds; Go's
      float-to-integer conversion truncates toward zero. */
  function Scale(factor: real, base: int): int
  {
    var p := factor * base as real;
    if p >= 0.0 then p.Floor else -((-p).Floor)
  }

  /** `Delay.Resolve`: an absolute delay ignores the context; a relative one
      needs a base duration and yields `factor * base` truncated toward zero. */
  function Resolve(d: Delay, context: Context): (r: Result<int>)
    ensures d.expression.Absolute? ==> r == Ok(d.expression.nanos)
    ensures d.expression.Relative? ==> (r.Ok? <==> context.DurationContext?)
    ensures r.Err? ==> r.error == "invalid context type"
    ensures d.expression.Relative? && context.DurationContext? && 0.0 <= d.expression.factor * context.nanos as real ==>
              r.value as real <= d.expression.factor * context.nanos as real < r.value as real + 1.0
    ensures d.expression.Relative? && context.DurationContext? && d.expression.factor * context.nanos as real < 0.0 ==>
              r.value as real - 1.0 < d.expression.factor * context.nanos as real <= r.value as real
  {
    match d.expression
    case Absolute(n) => Ok(n)
    case Relative(f) =>
      if context.DurationContext? then Ok(Scale(f, context.nanos)) else Err("invalid context type")
  }

  /** A relative delay whose factor and base are non-negative resolves to a
      non-negative delay no longer than the base when the factor is at most 1. */
  lemma ResolveRelativeBounds(f: real, base: int)
    requires 0.0 <= f && 0 <= base
    ensures Resolve(Delay(Relative(f)), DurationContext(base)).Ok?
    ensures 0 <= Resolve(Delay(Relative(f)), DurationContext(base)).value
    ensures f <= 1.0 ==> Resolve(Delay(Relative(f)), DurationContext(base)).value <= base
  {
    var p := f * base as real;
    assert 0.0 <= p;
    if f <= 1.0 {
      assert p <= 1.0 * base as real by {
        assert (1.0 - f) * base as real >= 0.0;
      }
      assert p.Floor <= base;
    }
  }

  /** The resolutions delay_test.go checks: an absolute 5s delay gives
      5s even without a context; a relative 0.5 delay gives 5s against a 10s
      base; and without a base, or with something that is not a duration, a
      relative delay fails. */
  lemma ResolveExamples()
    ensures Resolve(Delay(Absolute(5 * Second)), NilContext) == Ok(5 * Second)
    ensures Resolve(Delay(Relative(0.5)), DurationContext(10 * Second)) == Ok(5 * Second)
    ensures Resolve(Delay(Relative(0.5)), OtherContext) == Err("invalid context type")
    ensures Resolve(Delay(Relative(0.5)), NilContext) == Err("invalid context type")
  {
    assert 0.5 * (10 * Second) as real == (5 * Second) as real;
  }

  /** `task.Kind`, the span kind a definition carries. */
  datatype Kind = Internal | Client | Server | Producer | Consumer | Unspecified

  /** `task.FromString`: the kind named by a configuration string. */
  function KindFromString(s: string): (k: Kind)
    ensures k == Internal <==> s == "internal"
    ensures k == Client <==> s == "client"
    ensures k == Server <==> s == "server"
    ensures k == Producer <==> s == "producer"
    ensures k == Consumer <==> s == "consumer"
    ensures k == Unspecified <==> s !in {"internal", "client", "server", "producer", "consumer"}
  {
    match s
    case "internal" => Internal
    case "client" => Client
    case "server" => Server
    case "producer" => Producer
    case "consumer" => Consumer
    case _ => Unspecified
  }

  /** `task.Event`, built by `task.NewEvent(name, delay, attributes)`. */
  datatype Event = Event(name: string, delay: Delay, attributes: map<string, string>)

  /** `task.Condition`: the probabilistic sampler the configuration attaches
      is not part of this model; only the threshold is kept. */
  datatype Condition =
    | Probabilistic(threshold: real)
    | AtLeast(minimum: nat, sub: Condition)
    | Child(sub: Condition)
    | MarkedAsFailed

  datatype EffectKind = KindMarkAsFailed | KindAnnotate | KindRecordEvent | KindOther(name: string)

  /** `task.Effect`: a kind and one pointer per payload; a payload that is not
      set is a nil pointer. */
  datatype Effect = Effect(
    kind: EffectKind,
    markAsFailed: Option<string>,
    annotate: Option<map<string, string>>,
    recordEvent: Option<Event>)

  /** The payload that matches the kind is set, and no other. */
  predicate WellTagged(e: Effect)
  {
    && (e.markAsFailed.Some? <==> e.kind == KindMarkAsFailed)
    && (e.annotate.Some? <==> e.kind == KindAnnotate)
    && (e.recordEvent.Some? <==> e.kind == KindRecordEvent)
  }

  /** `task.FromMarkAsFailedEffect(task.NewMarkAsFailedEffect(&message))`. */
  function FromMarkAsFailedEffect(message: string): (e: Effect)
    ensures WellTagged(e) && e.kind == KindMarkAsFailed && e.markAsFailed == Some(message)
  {
    Effect(KindMarkAsFailed, Some(message), None, None)
  }

  /** `task.FromAnnotateEffect(task.NewAnnotateEffect(attributes))`. */
  function FromAnnotateEffect(attributes: map<string, string>): (e: Effect)
    ensures WellTagged(e) && e.kind == KindAnnotate && e.annotate == Some(attributes)
  {
    Effect(KindAnnotate, None, Some(attributes), None)
  }

  /** `task.FromRecordEventEffect(task.NewRecordEventEffect(event))`. */
  function FromRecordEventEffect(event: Event): (e: Effect)
    ensures WellTagged(e) && e.kind == KindRecordEvent && e.recordEvent == Some(event)
  {
    Effect(KindRecordEvent, None, None, Some(event))
  }

  /** `task.ConditionalDefinition`: effects applied when the condition holds. */
  datatype ConditionalDefinition = ConditionalDefinition(condition: Condition, effects: seq<Effect>)

  /** `task.Resource`: the attributes of the service a span belongs to. */
  type Resource = map<string, string>

  /** `task.Definition`, the payload of one node of the domain task tree,
      built by `task.NewDefinition` with its arguments in this order. */
  datatype Definition = Definition(
    name: string,
    isRoot: bool,
    resource: Resource,
    attributes: map<string, string>,
    kind: Kind,
    externalId: Option<ExternalId>,
    delay: Delay,
    duration: Duration,
    childOf: Option<ExternalId>,
    linkedTo: seq<ExternalId>,
    events: seq<Event>,
    conditionalDefinitions: seq<ConditionalDefinition>)
}
