/** internal/config/blueprint/service/spanduration.go and taskduration.go:
    the mode string of a delay or duration, and the conversion of a value in
    that mode into a domain time expression. Both files declare the same
    `Mode` type and `FromString`; the model has one of each. */
module Modes {
  import opened Wrappers
  import opened DomainTask
  import opened Collaborators

  /** Go's `type Mode string`: any string converts to a Mode. */
  datatype Mode = Mode(name: string)

  const AbsoluteMode: Mode := Mode("absolute")
  const RelativeMode: Mode := Mode("relative")
  const UnknownMode: Mode := Mode("unknown")

  /** Exactly "absolute" and "relative" name their modes; every other string
      is the unknown mode. */
  function FromString(mode: string): (m: Mode)
    ensures m == AbsoluteMode <==> mode == "absolute"
    ensures m == RelativeMode <==> mode == "relative"
    ensures m == UnknownMode <==> mode != "absolute" && mode != "relative"
  {
    match mode
    case "absolute" => AbsoluteMode
    case "relative" => RelativeMode
    case _ => UnknownMode
  }

  /** The name of each of the three modes converts back to that mode. */
  lemma FromStringRoundTrip(m: Mode)
    requires m == AbsoluteMode || m == RelativeMode || m == UnknownMode
    ensures FromString(m.name) == m
  {
  }

  /** `SpanDuration` and `TaskDuration`: an unparsed value with its mode. */
  datatype SpanDuration = SpanDuration(duration: string, mode: Mode)
  datatype TaskDuration = TaskDuration(duration: string, mode: Mode)

  /** The expression `value` denotes in `mode`, when it parses: what a
      successful conversion produces. */
  function ParsedExpression(value: string, mode: Mode, lib: Library): Option<Expression>
  {
    if mode == AbsoluteMode && lib.parseDuration(value).Ok? then Some(Absolute(lib.parseDuration(value).value))
    else if mode == RelativeMode && lib.parseFloat(value).Ok? then Some(Relative(lib.parseFloat(value).value))
    else None
  }

  /** The domain constructor accepts the expression `value` denotes in `mode`. */
  predicate Constructible(value: string, mode: Mode, lib: Library)
  {
    match ParsedExpression(value, mode, lib)
    case None => false
    case Some(Absolute(n)) => lib.newAbsoluteDuration(n).Pass?
    case Some(Relative(f)) => lib.newRelativeDuration(f).Pass?
  }

  /** `SpanDuration.To`: parse the value as the mode says and build the
      matching expression. */
  function SpanDurationTo(d: SpanDuration, lib: Library): (r: Result<Expression>)
    ensures r.Ok? <==> Constructible(d.duration, d.mode, lib)
    ensures r.Ok? ==> Some(r.value) == ParsedExpression(d.duration, d.mode, lib)
    ensures r.Ok? ==> (r.value.Absolute? <==> d.mode == AbsoluteMode) && (r.value.Relative? <==> d.mode == RelativeMode)
    ensures d.mode == AbsoluteMode && lib.parseDuration(d.duration).Err? ==>
              r == Err(Wrap("invalid absolute span duration", lib.parseDuration(d.duration).error))
    ensures d.mode == RelativeMode && lib.parseFloat(d.duration).Err? ==>
              r == Err(Wrap("invalid relative span duration", lib.parseFloat(d.duration).error))
    ensures d.mode == AbsoluteMode && lib.parseDuration(d.duration).Ok? && lib.newAbsoluteDuration(lib.parseDuration(d.duration).value).Fail? ==>
              r == Err(Wrap("failed to create absolute span duration", lib.newAbsoluteDuration(lib.parseDuration(d.duration).value).error))
    ensures d.mode == RelativeMode && lib.parseFloat(d.duration).Ok? && lib.newRelativeDuration(lib.parseFloat(d.duration).value).Fail? ==>
              r == Err(Wrap("failed to create relative span duration", lib.newRelativeDuration(lib.parseFloat(d.duration).value).error))
    ensures d.mode == UnknownMode ==> r == Err("unsupported span duration mode: " + d.mode.name)
    ensures d.mode !in {AbsoluteMode, RelativeMode, UnknownMode} ==> r == Err("invalid span duration mode: " + d.mode.name)
  {
    if d.mode == AbsoluteMode then
      match lib.parseDuration(d.duration)
      case Err(e) => Err(Wrap("invalid absolute span duration", e))
      case Ok(n) =>
        match lib.newAbsoluteDuration(n)
        case Fail(e) => Err(Wrap("failed to create absolute span duration", e))
        case Pass => Ok(Absolute(n))
    else if d.mode == RelativeMode then
      match lib.parseFloat(d.duration)
      case Err(e) => Err(Wrap("invalid relative span duration", e))
      case Ok(f) =>
        match lib.newRelativeDuration(f)
        case Fail(e) => Err(Wrap("failed to create relative span duration", e))
        case Pass => Ok(Relative(f))
    else if d.mode == UnknownMode then
      Err("unsupported span duration mode: " + d.mode.name)
    else
      Err("invalid span duration mode: " + d.mode.name)
  }

  /** `TaskDuration.To`: the same dispatch with task-flavoured errors. */
  function TaskDurationTo(d: TaskDuration, lib: Library): (r: Result<Expression>)
    ensures r.Ok? <==> Constructible(d.duration, d.mode, lib)
    ensures r.Ok? ==> Some(r.value) == ParsedExpression(d.duration, d.mode, lib)
    ensures r.Ok? ==> (r.value.Absolute? <==> d.mode == AbsoluteMode) && (r.value.Relative? <==> d.mode == RelativeMode)
    ensures d.mode == AbsoluteMode && lib.parseDuration(d.duration).Err? ==>
              r == Err(Wrap("invalid absolute task duration", lib.parseDuration(d.duration).error))
    ensures d.mode == RelativeMode && lib.parseFloat(d.duration).Err? ==>
              r == Err(Wrap("invalid relative task duration", lib.parseFloat(d.duration).error))
    ensures d.mode == AbsoluteMode && lib.parseDuration(d.duration).Ok? && lib.newAbsoluteDuration(lib.parseDuration(d.duration).value).Fail? ==>
              r == Err(Wrap("failed to create absolute task duration", lib.newAbsoluteDuration(lib.parseDuration(d.duration).value).error))
    ensures d.mode == RelativeMode && lib.parseFloat(d.duration).Ok? && lib.newRelativeDuration(lib.parseFloat(d.duration).value).Fail? ==>
              r == Err(Wrap("failed to create relative task duration", lib.newRelativeDuration(lib.parseFloat(d.duration).value).error))
    ensures d.mode == UnknownMode ==> r == Err("unsupported task duration mode: " + d.mode.name)
    ensures d.mode !in {AbsoluteMode, RelativeMode, UnknownMode} ==> r == Err("invalid task duration mode: " + d.mode.name)
  {
    if d.mode == AbsoluteMode then
      match lib.parseDuration(d.duration)
      case Err(e) => Err(Wrap("invalid absolute task duration", e))
      case Ok(n) =>
        match lib.newAbsoluteDuration(n)
        case Fail(e) => Err(Wrap("failed to create absolute task duration", e))
        case Pass => Ok(Absolute(n))
    else if d.mode == RelativeMode then
      match lib.parseFloat(d.duration)
      case Err(e) => Err(Wrap("invalid relative task duration", e))
      case Ok(f) =>
        match lib.newRelativeDuration(f)
        case Fail(e) => Err(Wrap("failed to create relative task duration", e))
        case Pass => Ok(Relative(f))
    else if d.mode == UnknownMode then
      Err("unsupported task duration mode: " + d.mode.name)
    else
      Err("invalid task duration mode: " + d.mode.name)
  }
}
