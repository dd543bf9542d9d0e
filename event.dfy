/** internal/config/blueprint/service/event.go: an event recorded on a span,
    with a delay that follows the delay rules. */
module ConfigEvent {
  import opened Wrappers
  import DomainTask
  import opened Collaborators
  import ConfigDelay
  import Modes

  /** `service.Event`: the delay is held by value, never nil. */
  datatype Event = Event(name: string, delay: ConfigDelay.Delay, attributes: map<string, string>)

  /** `Event.To`: the event converts exactly when its delay does, and keeps
      its name and attributes. */
  function To(e: Event, lib: Library): (r: Result<DomainTask.Event>)
    ensures r.Ok? <==> ConfigDelay.To(Some(e.delay), lib).Ok?
    ensures r.Err? ==> r.error == ConfigDelay.To(Some(e.delay), lib).error
    ensures r.Ok? ==> r.value.name == e.name && r.value.attributes == e.attributes
    ensures r.Ok? ==> r.value.delay == ConfigDelay.To(Some(e.delay), lib).value
    ensures r.Ok? ==> ConfigDelay.WellFormed(e.delay, lib) && ConfigDelay.NonNegative(r.value.delay.expression)
  {
    match ConfigDelay.To(Some(e.delay), lib)
    case Err(err) => Err(err)
    case Ok(delay) => Ok(DomainTask.Event(e.name, delay, e.attributes))
  }

  /** An event's delay obeys the delay checks: without a value it fails
      before its mode is looked at, and a negative absolute delay fails. */
  lemma EventDelayRules(name: string, mode: Option<string>, attributes: map<string, string>, lib: Library)
    requires AgreesWithTests(lib)
    ensures To(Event(name, ConfigDelay.Delay(None, mode), attributes), lib) == Err("missing required field: delay.for")
    ensures To(Event(name, ConfigDelay.Delay(Some("-1ns"), Some("absolute")), attributes), lib)
              == Err("absolute delay must be non-negative")
    ensures var zero := To(Event(name, ConfigDelay.Delay(Some("0"), Some("absolute")), attributes), lib);
              zero.Ok? <==> lib.newAbsoluteDuration(0).Pass? && lib.newDelay(DomainTask.Absolute(0)).Pass?
  {
    assert Modes.ParsedExpression("0", Modes.FromString("absolute"), lib) == Some(DomainTask.Absolute(0));
  }
}
