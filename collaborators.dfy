/** Library parsers and domain constructors whose code is not part of this
    model. Each is a parameter of the conversions, so every property proved
    here holds whatever they do; where a property needs one of them to
    behave a certain way, the lemma says so in its `requires`. */
module Collaborators {
  import opened Wrappers
  import opened DomainTask

  datatype Library = Library(
    /** `time.ParseDuration`: a duration in nanoseconds, or the parser's error. */
    parseDuration: string -> Result<int>,
    /** `strconv.ParseFloat(s, 64)`. */
    parseFloat: string -> Result<real>,
    /** The checks of `taskduration.NewAbsoluteDuration` and `NewRelativeDuration`. */
    newAbsoluteDuration: int -> Outcome,
    newRelativeDuration: real -> Outcome,
    /** The checks `task.NewDelay` and `task.NewDuration` make on a non-nil
        expression. */
    newDelay: Expression -> Outcome,
    newDuration: Expression -> Outcome,
    /** The check of `task.NewExternalID`. */
    newExternalId: string -> Outcome,
    /** The check of `TreeNode.AddChild(child)` on a node with the first definition. */
    addChild: (Definition, Definition) -> Outcome,
    /** The check of `span.FromRecordEventEffect`. */
    fromRecordEventEffect: Event -> Outcome)

  /** What the repository's tests rely on from the parsers: "0" is an absolute
      duration of zero, "-1ns" is minus one nanosecond, "0.5" is no Go duration,
      "10ms" is no float, and "^invalid$" is no external id. */
  predicate AgreesWithTests(lib: Library)
  {
    && lib.parseDuration("0") == Ok(0)
    && lib.parseDuration("-1ns") == Ok(-1)
    && lib.parseDuration("0.5").Err?
    && lib.parseFloat("10ms").Err?
    && lib.newExternalId("^invalid$").Fail?
    && lib.newDelay(Absolute(5 * Second)).Pass?
  }

  /** The domain constructors accept every expression the configuration
      checks let through (a non-negative delay, a positive duration). */
  ghost predicate ConstructorsAccept(lib: Library)
  {
    && (forall n: int :: 0 <= n ==> lib.newAbsoluteDuration(n).Pass?)
    && (forall f: real :: 0.0 <= f ==> lib.newRelativeDuration(f).Pass?)
    && (forall n: int :: 0 <= n ==> lib.newDelay(Absolute(n)).Pass?)
    && (forall f: real :: 0.0 <= f ==> lib.newDelay(Relative(f)).Pass?)
    && (forall n: int :: 0 < n ==> lib.newDuration(Absolute(n)).Pass?)
    && (forall f: real :: 0.0 < f ==> lib.newDuration(Relative(f)).Pass?)
  }

  /** `task.NewExternalID(value)`: the id holding `value`, or the error the
      library's check gives. */
  function NewExternalId(value: string, lib: Library): (r: Result<ExternalId>)
    ensures r.Ok? <==> lib.newExternalId(value).Pass?
    ensures r.Ok? ==> r.value.value == value
    ensures r.Err? ==> r.error == lib.newExternalId(value).error
  {
    match lib.newExternalId(value)
    case Fail(e) => Err(e)
    case Pass => Ok(ExternalId(value))
  }
}
