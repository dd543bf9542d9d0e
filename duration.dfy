/** internal/config/blueprint/service/duration.go: the duration of a span as
    configured (`for` and `as`), its defaulting, its validation and its
    conversion into a domain duration. */
module ConfigDuration {
  import opened Wrappers
  import DomainTask
  import opened Collaborators
  import opened Modes
  import opened Utils

  /** `service.Duration`: both fields are optional strings. A `*Duration` that
      may be nil is an `Option<Duration>`. */
  datatype Duration = Duration(value: Option<string>, mode: Option<string>)

  /** A duration expression that takes some time. */
  predicate Positive(e: DomainTask.Expression)
  {
    match e
    case Absolute(n) => 0 < n
    case Relative(f) => 0.0 < f
  }

  /** What an accepted duration is: both fields are set, the value denotes an
      expression in the mode it names, and that expression is positive. */
  predicate WellFormed(d: Duration, lib: Library)
  {
    && d.value.Some? && d.mode.Some?
    && match ParsedExpression(d.value.value, FromString(d.mode.value), lib)
       case None => false
       case Some(e) => Positive(e)
  }

  /** `Duration.ValidateAfterDefaults`: the checks run in a fixed order (present,
      value, mode, parse, sign) and the first failing one names the error. */
  function ValidateAfterDefaults(d: Option<Duration>, lib: Library): (r: Outcome)
    ensures r.Pass? <==> d.Some? && WellFormed(d.value, lib)
    ensures d.None? ==> r == Fail("missing duration")
    ensures d.Some? && d.value.value.None? ==> r == Fail("missing required field: duration.for")
    ensures d.Some? && d.value.value.Some? && d.value.mode.None? ==> r == Fail("missing required field: duration.mode")
    ensures d.Some? && d.value.value.Some? && d.value.mode.Some? ==>
              var v, m := d.value.value.value, d.value.mode.value;
              && (m == "absolute" && lib.parseDuration(v).Err? ==>
                    r == Fail(Wrap("invalid absolute duration format", lib.parseDuration(v).error)))
              && (m == "absolute" && lib.parseDuration(v).Ok? && lib.parseDuration(v).value <= 0 ==>
                    r == Fail("absolute duration must be greater than 0"))
              && (m == "relative" && lib.parseFloat(v).Err? ==>
                    r == Fail(Wrap("invalid relative duration format", lib.parseFloat(v).error)))
              && (m == "relative" && lib.parseFloat(v).Ok? && lib.parseFloat(v).value <= 0.0 ==>
                    r == Fail("relative duration must be greater than 0"))
              && (m != "absolute" && m != "relative" ==> r == Fail("unsupported duration mode: " + m))
  {
    match d
    case None => Fail("missing duration")
    case Some(Duration(value, mode)) =>
      if value.None? then Fail("missing required field: duration.for")
      else if mode.None? then Fail("missing required field: duration.mode")
      else
        var m := FromString(mode.value);
        if m == AbsoluteMode then
          match lib.parseDuration(value.value)
          case Err(e) => Fail(Wrap("invalid absolute duration format", e))
          case Ok(n) => if n <= 0 then Fail("absolute duration must be greater than 0") else Pass
        else if m == RelativeMode then
          match lib.parseFloat(value.value)
          case Err(e) => Fail(Wrap("invalid relative duration format", e))
          case Ok(f) => if f <= 0.0 then Fail("relative duration must be greater than 0") else Pass
        else
          Fail("unsupported duration mode: " + mode.value)
  }

  /** The value field of a duration that may be nil, nil-safe. */
  function ValueOf(d: Option<Duration>): Option<string>
  {
    if d.Some? then d.value.value else None
  }

  /** The mode field of a duration that may be nil, nil-safe. */
  function ModeOf(d: Option<Duration>): Option<string>
  {
    if d.Some? then d.value.mode else None
  }

  /** `Duration.WithDefault`: each field is the duration's own when set and the
      default's otherwise; the result is nil only when both are nil. */
  function WithDefault(d: Option<Duration>, dd: Option<Duration>): (r: Option<Duration>)
    ensures r.Some? <==> d.Some? || dd.Some?
    ensures ValueOf(r) == Coalesce(ValueOf(d), ValueOf(dd))
    ensures ModeOf(r) == Coalesce(ModeOf(d), ModeOf(dd))
    ensures d.None? ==> r == dd
    ensures dd.None? ==> r == d
  {
    if d.None? then dd
    else if dd.None? then d
    else Some(Duration(Coalesce(d.value.value, dd.value.value), Coalesce(d.value.mode, dd.value.mode)))
  }

  /** Applying the same default twice is applying it once. */
  lemma WithDefaultIdempotent(d: Option<Duration>, dd: Option<Duration>)
    ensures WithDefault(WithDefault(d, dd), dd) == WithDefault(d, dd)
  {
    var once := WithDefault(d, dd);
    var twice := WithDefault(once, dd);
    assert ValueOf(twice) == ValueOf(once) && ModeOf(twice) == ModeOf(once);
  }

  /** A duration that sets both fields ignores the default entirely. */
  lemma WithDefaultComplete(d: Duration, dd: Option<Duration>)
    requires d.value.Some? && d.mode.Some?
    ensures WithDefault(Some(d), dd) == Some(d)
  {
    var r := WithDefault(Some(d), dd);
    assert ValueOf(r) == d.value && ModeOf(r) == d.mode;
  }

  /** `Duration.To`: validate, convert the value in its mode to an expression
      and wrap that in a domain duration. */
  function To(d: Option<Duration>, lib: Library): (r: Result<DomainTask.Duration>)
    ensures ValidateAfterDefaults(d, lib).Fail? ==> r == Err(ValidateAfterDefaults(d, lib).error)
    ensures r.Ok? ==> ValidateAfterDefaults(d, lib).Pass?
    ensures r.Ok? <==> d.Some? && WellFormed(d.value, lib) && Constructible(d.value.value.value, FromString(d.value.mode.value), lib)
                       && lib.newDuration(ParsedExpression(d.value.value.value, FromString(d.value.mode.value), lib).value).Pass?
    ensures r.Ok? ==> Some(r.value.expression) == ParsedExpression(d.value.value.value, FromString(d.value.mode.value), lib)
    ensures r.Ok? ==> Positive(r.value.expression)
    ensures ValidateAfterDefaults(d, lib).Pass? ==>
              var expr := TaskDurationTo(TaskDuration(d.value.value.value, FromString(d.value.mode.value)), lib);
              && (expr.Err? ==> r == Err(Wrap("failed to convert duration", expr.error)))
              && (expr.Ok? && lib.newDuration(expr.value).Fail? ==> r == Err(Wrap("failed to create duration", lib.newDuration(expr.value).error)))
  {
    match ValidateAfterDefaults(d, lib)
    case Fail(e) => Err(e)
    case Pass =>
      var td := TaskDuration(d.value.value.value, FromString(d.value.mode.value));
      match TaskDurationTo(td, lib)
      case Err(e) => Err(Wrap("failed to convert duration", e))
      case Ok(expr) =>
        match lib.newDuration(expr)
        case Fail(e) => Err(Wrap("failed to create duration", e))
        case Pass => Ok(DomainTask.Duration(expr))
  }

  /** When the domain constructors accept every positive expression, a
      duration that passes validation always converts. */
  lemma ValidatedConverts(d: Option<Duration>, lib: Library)
    requires ConstructorsAccept(lib)
    requires ValidateAfterDefaults(d, lib).Pass?
    ensures To(d, lib).Ok?
  {
    var v, m := d.value.value.value, FromString(d.value.mode.value);
    match ParsedExpression(v, m, lib)
    case Some(Absolute(n)) => assert lib.newAbsoluteDuration(n).Pass? && lib.newDuration(DomainTask.Absolute(n)).Pass?;
    case Some(Relative(f)) => assert lib.newRelativeDuration(f).Pass? && lib.newDuration(DomainTask.Relative(f)).Pass?;
  }

  /** The durations the repository's tests feed in, with the parsers they rely on. */
  lemma ValidateExamples(lib: Library)
    requires AgreesWithTests(lib)
    ensures ValidateAfterDefaults(Some(Duration(Some("0"), Some("absolute"))), lib) == Fail("absolute duration must be greater than 0")
    ensures ValidateAfterDefaults(Some(Duration(Some("-1ns"), Some("absolute"))), lib) == Fail("absolute duration must be greater than 0")
    ensures ValidateAfterDefaults(Some(Duration(None, None)), lib) == Fail("missing required field: duration.for")
    ensures ValidateAfterDefaults(Some(Duration(None, Some("absolute"))), lib) == Fail("missing required field: duration.for")
    ensures ValidateAfterDefaults(Some(Duration(Some("10ms"), None)), lib) == Fail("missing required field: duration.mode")
    ensures ValidateAfterDefaults(Some(Duration(Some("0.5"), Some("absolute"))), lib).error
              == Wrap("invalid absolute duration format", lib.parseDuration("0.5").error)
    ensures ValidateAfterDefaults(Some(Duration(Some("10ms"), Some("relative"))), lib).error
              == Wrap("invalid relative duration format", lib.parseFloat("10ms").error)
  {
  }
}
