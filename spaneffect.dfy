/** internal/tracesimulator/model/span/effect.go and annotateeffect.go: the
    effects a rendered span node undergoes, built from the task effect
    specifications, and the in-place attribute merge of an annotation. */
module SpanEffect {
  import opened Wrappers
  import opened Collaborators
  import DomainTask
  import ConfigEffect

  /** `span.AnnotateEffect`: the attributes to write onto the node. */
  datatype AnnotateEffect = AnnotateEffect(attributes: map<string, string>)

  /** The span-level effects `FromEffectSpec` can produce. The mark-as-failed
      and record-event effects are defined in files that are not part of
      this model; only what they are built from is kept. */
  datatype Effect =
    | MarkAsFailed(message: string)
    | RecordEvent(event: DomainTask.Event)
    | Annotate(annotate: AnnotateEffect)

  /** The part of a rendered span node an annotation touches: its attribute
      map, which is nil until something is written to it. */
  class SpanNode {
    var attributes: Option<map<string, string>>

    constructor(attributes: Option<map<string, string>>)
      ensures this.attributes == attributes
    {
      this.attributes := attributes;
    }
  }

  /** The attributes of a node whose map may be nil, read as Go reads a nil
      map: empty. */
  function AttributesOf(m: Option<map<string, string>>): map<string, string>
  {
    if m.Some? then m.value else map[]
  }

  /** `base` with every entry of `update` written over it. */
  function Merged(base: map<string, string>, update: map<string, string>): map<string, string>
  {
    map k | k in base.Keys + update.Keys :: if k in update then update[k] else base[k]
  }

  /** Every annotated key ends up with the annotation's value, overwriting
      what was there. */
  lemma MergedOverwrites(base: map<string, string>, update: map<string, string>)
    ensures forall k :: k in update ==> k in Merged(base, update) && Merged(base, update)[k] == update[k]
  {
  }

  /** A key the annotation does not name keeps its value, no key is removed,
      and no key appears from nowhere. */
  lemma MergedKeeps(base: map<string, string>, update: map<string, string>)
    ensures forall k :: k in base && k !in update ==> k in Merged(base, update) && Merged(base, update)[k] == base[k]
    ensures Merged(base, update).Keys == base.Keys + update.Keys
  {
  }

  /** Annotating twice with the same attributes is annotating once. */
  lemma MergedIdempotent(base: map<string, string>, update: map<string, string>)
    ensures Merged(Merged(base, update), update) == Merged(base, update)
  {
  }

  /** `AnnotateEffect.Apply`: allocate the node's map if it is nil, then
      write each key of the annotation into it. It never fails. */
  method Apply(a: AnnotateEffect, node: SpanNode) returns (err: Outcome)
    modifies node
    ensures node.attributes == Some(Merged(AttributesOf(old(node.attributes)), a.attributes))
    ensures err == Pass
  {
    if node.attributes.None? {
      node.attributes := Some(map[]);
    }
    ghost var base := node.attributes.value;
    var todo := a.attributes.Keys;
    while todo != {}
      invariant node.attributes.Some?
      invariant todo <= a.attributes.Keys
      invariant node.attributes.value.Keys == base.Keys + (a.attributes.Keys - todo)
      invariant forall k :: k in a.attributes.Keys - todo ==> node.attributes.value[k] == a.attributes[k]
      invariant forall k :: k in base && k !in a.attributes.Keys - todo ==> node.attributes.value[k] == base[k]
      decreases todo
    {
      var k :| k in todo;
      node.attributes := Some(node.attributes.value[k := a.attributes[k]]);
      todo := todo - {k};
    }
    assert node.attributes.value == Merged(base, a.attributes);
    return Pass;
  }

  /** `FromTaskAnnotateEffect`: the task annotation's attributes, unchanged. */
  function FromTaskAnnotateEffect(attributes: map<string, string>): (r: AnnotateEffect)
    ensures r.attributes == attributes
  {
    AnnotateEffect(attributes)
  }

  /** `FromEffectSpec`: dispatch on the kind of a task effect. A mark-as-failed
      specification is read without a nil check, so its payload must be set;
      the other two kinds check theirs. */
  function FromEffectSpec(spec: DomainTask.Effect, lib: Library): (r: Result<Effect>)
    requires spec.kind == DomainTask.KindMarkAsFailed ==> spec.markAsFailed.Some?
    ensures spec.kind == DomainTask.KindMarkAsFailed ==> r == Ok(MarkAsFailed(spec.markAsFailed.value))
    ensures spec.kind == DomainTask.KindRecordEvent && spec.recordEvent.None? ==> r == Err("record event effect is nil")
    ensures spec.kind == DomainTask.KindRecordEvent && spec.recordEvent.Some? ==>
              match lib.fromRecordEventEffect(spec.recordEvent.value)
              case Fail(e) => r == Err(Wrap("failed to convert record event effect", e))
              case Pass => r == Ok(RecordEvent(spec.recordEvent.value))
    ensures spec.kind == DomainTask.KindAnnotate && spec.annotate.None? ==> r == Err("annotate effect is nil")
    ensures spec.kind == DomainTask.KindAnnotate && spec.annotate.Some? ==>
              r == Ok(Annotate(AnnotateEffect(spec.annotate.value)))
    ensures spec.kind.KindOther? ==> r == Err("unknown effect type: " + spec.kind.name)
  {
    match spec.kind
    case KindMarkAsFailed => Ok(MarkAsFailed(spec.markAsFailed.value))
    case KindRecordEvent =>
      if spec.recordEvent.None? then Err("record event effect is nil")
      else
        (match lib.fromRecordEventEffect(spec.recordEvent.value)
         case Fail(e) => Err(Wrap("failed to convert record event effect", e))
         case Pass => Ok(RecordEvent(spec.recordEvent.value)))
    case KindAnnotate =>
      if spec.annotate.None? then Err("annotate effect is nil")
      else Ok(Annotate(FromTaskAnnotateEffect(spec.annotate.value)))
    case KindOther(name) => Err("unknown effect type: " + name)
  }

  /** Effects built by the configuration conversion always carry the payload
      their kind names, so the nil checks of `FromEffectSpec` never fire on
      them: only the record-event conversion can still fail. */
  lemma ConfiguredEffectsConvert(c: ConfigEffect.Effect, lib: Library)
    requires ConfigEffect.To(c, lib).Ok?
    ensures var spec := ConfigEffect.To(c, lib).value;
            && (spec.kind == DomainTask.KindMarkAsFailed ==> spec.markAsFailed.Some?)
            && (FromEffectSpec(spec, lib).Err? ==>
                  spec.kind == DomainTask.KindRecordEvent
                  && FromEffectSpec(spec, lib).error == Wrap("failed to convert record event effect",
                                                             lib.fromRecordEventEffect(spec.recordEvent.value).error))
  {
  }
}
