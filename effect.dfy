/** internal/config/blueprint/service/effect.go: an effect a condition
    triggers, as configured. Every payload is held by value; only the one the
    kind names is read. */
module ConfigEffect {
  import opened Wrappers
  import DomainTask
  import opened Collaborators
  import ConfigEvent

  datatype MarkAsFailed = MarkAsFailed(message: string)
  datatype Annotate = Annotate(attributes: map<string, string>)
  datatype RecordEvent = RecordEvent(event: ConfigEvent.Event)

  /** `service.Effect`. */
  datatype Effect = Effect(kind: string, markAsFailed: MarkAsFailed, annotate: Annotate, recordEvent: RecordEvent)

  /** `Effect.To`: exact-string dispatch on the kind to the matching domain
      effect, which carries the matching payload and no other. */
  function To(e: Effect, lib: Library): (r: Result<DomainTask.Effect>)
    ensures r.Ok? ==> DomainTask.WellTagged(r.value)
    ensures r.Ok? <==>
              || e.kind == "markAsFailed" || e.kind == "annotate"
              || (e.kind == "recordEvent" && ConfigEvent.To(e.recordEvent.event, lib).Ok?)
    ensures e.kind == "markAsFailed" ==>
              r.Ok? && r.value.kind == DomainTask.KindMarkAsFailed && r.value.markAsFailed == Some(e.markAsFailed.message)
    ensures e.kind == "annotate" ==>
              r.Ok? && r.value.kind == DomainTask.KindAnnotate && r.value.annotate == Some(e.annotate.attributes)
    ensures e.kind == "recordEvent" && r.Ok? ==>
              r.value.kind == DomainTask.KindRecordEvent && r.value.recordEvent == Some(ConfigEvent.To(e.recordEvent.event, lib).value)
    ensures e.kind == "recordEvent" && r.Err? ==>
              r.error == Wrap("failed to convert record event effect", ConfigEvent.To(e.recordEvent.event, lib).error)
    ensures e.kind !in {"markAsFailed", "annotate", "recordEvent"} ==> r == Err("unknown effect type: " + e.kind)
  {
    match e.kind
    case "markAsFailed" => Ok(DomainTask.FromMarkAsFailedEffect(e.markAsFailed.message))
    case "annotate" => Ok(DomainTask.FromAnnotateEffect(e.annotate.attributes))
    case "recordEvent" =>
      (match ConfigEvent.To(e.recordEvent.event, lib)
       case Err(err) => Err(Wrap("failed to convert record event effect", err))
       case Ok(event) => Ok(DomainTask.FromRecordEventEffect(event)))
    case _ => Err("unknown effect type: " + e.kind)
  }

  /** The payload of the matching kind is all that is read: two effects of the
      same kind that agree on that payload convert alike. */
  lemma OnlyMatchingPayloadRead(e1: Effect, e2: Effect, lib: Library)
    requires e1.kind == e2.kind
    requires e1.kind == "markAsFailed" ==> e1.markAsFailed == e2.markAsFailed
    requires e1.kind == "annotate" ==> e1.annotate == e2.annotate
    requires e1.kind == "recordEvent" ==> e1.recordEvent == e2.recordEvent
    ensures To(e1, lib) == To(e2, lib)
  {
  }
}
