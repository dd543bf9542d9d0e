/** internal/config/blueprint/service/delay.go: the delay of a span or an
    event as configured (`for` and `as`), its defaulting, its validation and
    its conversion into a domain delay. */
module ConfigDelay {
  import opened Wrappers
  import DomainTask
  import opened Collaborators
  import opened Modes
  import opened Utils

  /** `service.Delay`: both fields are optional strings. A `*Delay` that may
      be nil is an `Option<Delay>`. */
  datatype Delay = Delay(value: Option<string>, mode: Option<string>)

  /** A delay expression that does not lie in the past. */
  predicate NonNegative(e: DomainTask.Expression)
  {
    match e
    case Absolute(n) => 0 <= n
    case Relative(f) => 0.0 <= f
  }

  /** What an accepted delay is: both fields are set, the value denotes an
      expression in the mode it names, and that expression is non-negative. */
  predicate WellFormed(d: Delay, lib: Library)
  {
    && d.value.Some? && d.mode.Some?
    && match ParsedExpression(d.value.value, FromString(d.mode.value), lib)
       case None => false
       case Some(e) => NonNegative(e)
  }

  /** `Delay.ValidateAfterDefaults`: the checks run in a fixed order (present,
      value, mode, parse, sign) and the first failing one names the error. */
  function ValidateAfterDefaults(d: Option<Delay>, lib: Library): (r: Outcome)
    ensures r.Pass? <==> d.Some? && WellFormed(d.value, lib)
    ensures d.None? ==> r == Fail("missing delay")
    ensures d.Some? && d.value.value.None? ==> r == Fail("missing required field: delay.for")
    ensures d.Some? && d.value.value.Some? && d.value.mode.None? ==> r == Fail("missing required field: delay.mode")
    ensures d.Some? && d.value.value.Some? && d.value.mode.Some? ==>
              var v, m := d.value.value.value, d.value.mode.value;
              && (m == "absolute" && lib.parseDuration(v).Err? ==>
                    r == Fail(Wrap("invalid absolute delay format", lib.parseDuration(v).error)))
              && (m == "absolute" && lib.parseDuration(v).Ok? && lib.parseDuration(v).value < 0 ==>
                    r == Fail("absolute delay must be non-negative"))
              && (m == "relative" && lib.parseFloat(v).Err? ==>
                    r == Fail(Wrap("invalid relative delay format", lib.parseFloat(v).error)))
              && (m == "relative" && lib.parseFloat(v).Ok? && lib.parseFloat(v).value < 0.0 ==>
                    r == Fail("relative delay must be non-negative"))
              && (m != "absolute" && m != "relative" ==> r == Fail("unsupported delay mode: " + m))
  {
    match d
    case None => Fail("missing delay")
    case Some(Delay(value, mode)) =>
      if value.None? then Fail("missing required field: delay.for")
      else if mode.None? then Fail("missing required field: delay.mode")
      else
        var m := FromString(mode.value);
        if m == AbsoluteMode then
          match lib.parseDuration(value.value)
          case Err(e) => Fail(Wrap("invalid absolute delay format", e))
          case Ok(n) => if n < 0 then Fail("absolute delay must be non-negative") else Pass
        else if m == RelativeMode then
          match lib.parseFloat(value.value)
          case Err(e) => Fail(Wrap("invalid relative delay format", e))
          case Ok(f) => if f < 0.0 then Fail("relative delay must be non-negative") else Pass
        else
          Fail("unsupported delay mode: " + mode.value)
  }

  /** The value field of a delay that may be nil, nil-safe. */
  function ValueOf(d: Option<Delay>): Option<string>
  {
    if d.Some? then d.value.value else None
  }

  /** The mode field of a delay that may be nil, nil-safe. */
  function ModeOf(d: Option<Delay>): Option<string>
  {
    if d.Some? then d.value.mode else None
  }

  /** `Delay.WithDefault`: each field is the delay's own when set and the
      default's otherwise; the result is nil only when both are nil. */
  function WithDefault(d: Option<Delay>, dd: Option<Delay>): (r: Option<Delay>)
    ensures r.Some? <==> d.Some? || dd.Some?
    ensures ValueOf(r) == Coalesce(ValueOf(d), ValueOf(dd))
    ensures ModeOf(r) == Coalesce(ModeOf(d), ModeOf(dd))
    ensures d.None? ==> r == dd
    ensures dd.None? ==> r == d
  {
    if d.None? then dd
    else if dd.None? then d
    else Some(Delay(Coalesce(d.value.value, dd.value.value), Coalesce(d.value.mode, dd.value.mode)))
  }

  /** Applying the same default twice is applying it once. */
  lemma WithDefaultIdempotent(d: Option<Delay>, dd: Option<Delay>)
    ensures WithDefault(WithDefault(d, dd), dd) == WithDefault(d, dd)
  {
    var once := WithDefault(d, dd);
    var twice := WithDefault(once, dd);
    assert ValueOf(twice) == ValueOf(once) && ModeOf(twice) == ModeOf(once);
  }

  /** A delay that sets both fields ignores the default entirely. */
  lemma WithDefaultComplete(d: Delay, dd: Option<Delay>)
    requires d.value.Some? && d.mode.Some?
    ensures WithDefault(Some(d), dd) == Some(d)
  {
    var r := WithDefault(Some(d), dd);
    assert ValueOf(r) == d.value && ModeOf(r) == d.mode;
  }

  /** `Delay.To`: validate, convert the value in its mode to an expression
      and wrap that in a domain delay. */
  function To(d: Option<Delay>, lib: Library): (r: Result<DomainTask.Delay>)
    ensures ValidateAfterDefaults(d, lib).Fail? ==> r == Err(ValidateAfterDefaults(d, lib).error)
    ensures r.Ok? ==> ValidateAfterDefaults(d, lib).Pass?
    ensures r.Ok? <==> d.Some? && WellFormed(d.value, lib) && Constructible(d.value.value.value, FromString(d.value.mode.value), lib)
                       && lib.newDelay(ParsedExpression(d.value.value.value, FromString(d.value.mode.value), lib).value).Pass?
    ensures r.Ok? ==> Some(r.value.expression) == ParsedExpression(d.value.value.value, FromString(d.value.mode.value), lib)
    ensures r.Ok? ==> NonNegative(r.value.expression)
    ensures ValidateAfterDefaults(d, lib).Pass? ==>
              var expr := SpanDurationTo(SpanDuration(d.value.value.value, FromString(d.value.mode.value)), lib);
              && (expr.Err? ==> r == Err(Wrap("failed to convert delay", expr.error)))
              && (expr.Ok? && lib.newDelay(expr.value).Fail? ==> r == Err(Wrap("failed to create delay", lib.newDelay(expr.value).error)))
  {
    match ValidateAfterDefaults(d, lib)
    case Fail(e) => Err(e)
    case Pass =>
      var td := SpanDuration(d.value.value.value, FromString(d.value.mode.value));
      match SpanDurationTo(td, lib)
      case Err(e) => Err(Wrap("failed to convert delay", e))
      case Ok(expr) =>
        match DomainTask.NewDelay(Some(expr), lib.newDelay)
        case Err(e) => Err(Wrap("failed to create delay", e))
        case Ok(delay) => Ok(delay)
  }

  /** When the domain constructors accept every non-negative expression, a
      delay that passes validation always converts. */
  lemma ValidatedConverts(d: Option<Delay>, lib: Library)
    requires ConstructorsAccept(lib)
    requires ValidateAfterDefaults(d, lib).Pass?
    ensures To(d, lib).Ok?
  {
    var v, m := d.value.value.value, FromString(d.value.mode.value);
    match ParsedExpression(v, m, lib)
    case Some(Absolute(n)) => assert lib.newAbsoluteDuration(n).Pass? && lib.newDelay(DomainTask.Absolute(n)).Pass?;
    case Some(Relative(f)) => assert lib.newRelativeDuration(f).Pass? && lib.newDelay(DomainTask.Relative(f)).Pass?;
  }

  /** The delays the repository's tests feed in, with the parsers they rely on. */
  lemma ValidateExamples(lib: Library)
    requires AgreesWithTests(lib)
    ensures ValidateAfterDefaults(Some(Delay(Some("0"), Some("absolute"))), lib) == Pass
    ensures ValidateAfterDefaults(Some(Delay(Some("-1ns"), Some("absolute"))), lib) == Fail("absolute delay must be non-negative")
    ensures ValidateAfterDefaults(Some(Delay(None, None)), lib) == Fail("missing required field: delay.for")
    ensures ValidateAfterDefaults(Some(Delay(None, Some("absolute"))), lib) == Fail("missing required field: delay.for")
    ensures ValidateAfterDefaults(Some(Delay(Some("10ms"), None)), lib) == Fail("missing required field: delay.mode")
    ensures ValidateAfterDefaults(Some(Delay(Some("0.5"), Some("absolute"))), lib).error
              == Wrap("invalid absolute delay format", lib.parseDuration("0.5").error)
    ensures ValidateAfterDefaults(Some(Delay(Some("10ms"), Some("relative"))), lib).error
              == Wrap("invalid relative delay format", lib.parseFloat("10ms").error)
  {
  }
}
