/** internal/config/blueprint/service/spandefinition.go: a span as
    configured, with its children, and its recursive conversion to a task. */
module ConfigSpan {
  import opened Wrappers
  import DomainTask
  import opened Collaborators
  import ConfigDelay
  import ConfigDuration
  import ConfigEvent
  import ConfigConditionalEffect
  import TaskModel

  /** `service.SpanDefinition`. Pointers that may be nil are options; the
      link pointers are taken to be non-nil. */
  datatype SpanDefinition = SpanDefinition(
    name: string,
    ref: Option<string>,
    delay: Option<ConfigDelay.Delay>,
    duration: Option<ConfigDuration.Duration>,
    kind: string,
    attributes: map<string, string>,
    children: seq<SpanDefinition>,
    events: seq<ConfigEvent.Event>,
    parent: Option<string>,
    links: seq<string>,
    conditionalEffects: seq<ConfigConditionalEffect.ConditionalEffect>)

  function ExternalIdConverter(lib: Library): string -> Result<DomainTask.ExternalId>
  {
    s => NewExternalId(s, lib)
  }

  function EventConverter(lib: Library): ConfigEvent.Event -> Result<DomainTask.Event>
  {
    e => ConfigEvent.To(e, lib)
  }

  function ConditionalEffectConverter(lib: Library)
    : ConfigConditionalEffect.ConditionalEffect -> Result<DomainTask.ConditionalDefinition>
  {
    c => ConfigConditionalEffect.Conversion(c, lib)
  }

  /** The span's own id: none without a ref; an invalid ref is reported by
      name, the library's error dropped. */
  function RefId(ref: Option<string>, lib: Library): (r: Result<Option<DomainTask.ExternalId>>)
    ensures ref.None? ==> r == Ok(None)
    ensures ref.Some? && lib.newExternalId(ref.value).Fail? ==> r == Err("invalid external ref: " + ref.value)
    ensures ref.Some? && lib.newExternalId(ref.value).Pass? ==> r == Ok(Some(DomainTask.ExternalId(ref.value)))
  {
    match ref
    case None => Ok(None)
    case Some(x) =>
      match NewExternalId(x, lib)
      case Err(_) => Err("invalid external ref: " + x)
      case Ok(id) => Ok(Some(id))
  }

  /** The parent's id: none without a parent; the library's error passes
      through unwrapped. */
  function ParentId(parent: Option<string>, lib: Library): (r: Result<Option<DomainTask.ExternalId>>)
    ensures parent.None? ==> r == Ok(None)
    ensures parent.Some? && lib.newExternalId(parent.value).Fail? ==> r == Err(lib.newExternalId(parent.value).error)
    ensures parent.Some? && lib.newExternalId(parent.value).Pass? ==> r == Ok(Some(DomainTask.ExternalId(parent.value)))
  {
    match parent
    case None => Ok(None)
    case Some(x) =>
      match NewExternalId(x, lib)
      case Err(e) => Err(e)
      case Ok(id) => Ok(Some(id))
  }

  /** What `SpanDefinition.To` computes. The parts are converted in a fixed
      order (delay, duration, ref, parent, links, children, events,
      conditional effects) and the first error is the result. */
  function Conversion(sd: SpanDefinition, lib: Library): (r: Result<TaskModel.Task>)
    decreases sd
  {
    var delay := ConfigDelay.To(sd.delay, lib);
    var duration := ConfigDuration.To(sd.duration, lib);
    var externalId := RefId(sd.ref, lib);
    var parentId := ParentId(sd.parent, lib);
    var links := MapResults(sd.links, ExternalIdConverter(lib));
    var children := Conversions(sd.children, lib);
    var events := MapResults(sd.events, EventConverter(lib));
    var conditionals := MapResults(sd.conditionalEffects, ConditionalEffectConverter(lib));
    if delay.Err? then Err(delay.error)
    else if duration.Err? then Err(duration.error)
    else if externalId.Err? then Err(externalId.error)
    else if parentId.Err? then Err(parentId.error)
    else if links.Err? then Err(links.error)
    else if children.Err? then Err(children.error)
    else if events.Err? then Err(events.error)
    else if conditionals.Err? then Err(conditionals.error)
    else
      Ok(TaskModel.Task(sd.name, externalId.value, delay.value, duration.value, sd.kind, sd.attributes,
                        children.value, parentId.value, links.value, events.value, conditionals.value))
  }

  /** The children of a span converted in order; the first error aborts. */
  function Conversions(sds: seq<SpanDefinition>, lib: Library): Result<seq<TaskModel.Task>>
    decreases sds
  {
    if sds == [] then Ok([])
    else
      match Conversion(sds[0], lib)
      case Err(e) => Err(e)
      case Ok(t) => Prepend([t], Conversions(sds[1..], lib))
  }

  /** The children convert exactly when each child does, into the converted
      children in order; otherwise the first failing child's error. */
  lemma {:induction false} ConversionsMeaning(sds: seq<SpanDefinition>, lib: Library)
    ensures var r := Conversions(sds, lib);
            && (r.Ok? <==> forall i :: 0 <= i < |sds| ==> Conversion(sds[i], lib).Ok?)
            && (r.Ok? ==> |r.value| == |sds| && forall i :: 0 <= i < |sds| ==> Conversion(sds[i], lib) == Ok(r.value[i]))
            && (r.Err? ==> exists i :: 0 <= i < |sds| && Conversion(sds[i], lib) == Err(r.error)
                                     && forall j :: 0 <= j < i ==> Conversion(sds[j], lib).Ok?)
  {
    if sds != [] {
      var rest := sds[1..];
      ConversionsMeaning(rest, lib);
      assert forall i :: 1 <= i < |sds| ==> rest[i - 1] == sds[i];
      var r := Conversions(rest, lib);
      if Conversion(sds[0], lib).Ok? && r.Err? {
        var k :| 0 <= k < |rest| && Conversion(rest[k], lib) == Err(r.error)
                 && forall j :: 0 <= j < k ==> Conversion(rest[j], lib).Ok?;
        assert Conversion(sds[k + 1], lib) == Err(r.error);
      }
    }
  }

  /** A delay error wins over every later one, a duration error over the
      rest, and an invalid ref is reported by name. */
  lemma ConversionErrorOrder(sd: SpanDefinition, lib: Library)
    ensures ConfigDelay.To(sd.delay, lib).Err? ==> Conversion(sd, lib) == Err(ConfigDelay.To(sd.delay, lib).error)
    ensures ConfigDelay.To(sd.delay, lib).Ok? && ConfigDuration.To(sd.duration, lib).Err? ==>
              Conversion(sd, lib) == Err(ConfigDuration.To(sd.duration, lib).error)
    ensures ConfigDelay.To(sd.delay, lib).Ok? && ConfigDuration.To(sd.duration, lib).Ok?
            && sd.ref.Some? && lib.newExternalId(sd.ref.value).Fail? ==>
              Conversion(sd, lib) == Err("invalid external ref: " + sd.ref.value)
  {
  }

  /** A converted task keeps the span's name, kind and attributes and
      takes its ids from the ref, the parent and the links, in order. */
  lemma ConversionIds(sd: SpanDefinition, lib: Library)
    requires Conversion(sd, lib).Ok?
    ensures var t := Conversion(sd, lib).value;
            && t.name == sd.name && t.kind == sd.kind && t.attributes == sd.attributes
            && (sd.ref.Some? <==> t.externalId.Some?)
            && (sd.ref.Some? ==> t.externalId.value.value == sd.ref.value)
            && (sd.parent.Some? <==> t.childOf.Some?)
            && (sd.parent.Some? ==> t.childOf.value.value == sd.parent.value)
            && |t.linkedTo| == |sd.links|
            && (forall i :: 0 <= i < |sd.links| ==> t.linkedTo[i].value == sd.links[i])
  {
    var links := MapResults(sd.links, ExternalIdConverter(lib));
    MapResultsMeaning(sd.links, ExternalIdConverter(lib));
    assert forall i :: 0 <= i < |sd.links| ==> ExternalIdConverter(lib)(sd.links[i]) == Ok(links.value[i]);
  }

  /** A converted task is assembled from its parts, each converted. */
  lemma ConversionUnfold(sd: SpanDefinition, lib: Library)
    requires Conversion(sd, lib).Ok?
    ensures ConfigDelay.To(sd.delay, lib).Ok? && ConfigDuration.To(sd.duration, lib).Ok?
    ensures Conversions(sd.children, lib).Ok?
    ensures MapResults(sd.events, EventConverter(lib)).Ok?
    ensures MapResults(sd.conditionalEffects, ConditionalEffectConverter(lib)).Ok?
    ensures var t := Conversion(sd, lib).value;
            && t.delay == ConfigDelay.To(sd.delay, lib).value
            && t.duration == ConfigDuration.To(sd.duration, lib).value
            && t.children == Conversions(sd.children, lib).value
            && t.events == MapResults(sd.events, EventConverter(lib)).value
            && t.conditionalDefinitions == MapResults(sd.conditionalEffects, ConditionalEffectConverter(lib)).value
  {
  }

  /** A converted task holds the converted delay and duration, and its
      children converted in order with none dropped. */
  lemma ConversionChildren(sd: SpanDefinition, lib: Library)
    requires Conversion(sd, lib).Ok?
    ensures var t := Conversion(sd, lib).value;
            && ConfigDelay.To(sd.delay, lib) == Ok(t.delay)
            && ConfigDuration.To(sd.duration, lib) == Ok(t.duration)
            && |t.children| == |sd.children|
            && (forall i :: 0 <= i < |sd.children| ==> Conversion(sd.children[i], lib) == Ok(t.children[i]))
  {
    ConversionUnfold(sd, lib);
    ConversionsMeaning(sd.children, lib);
  }

  /** A converted task holds the span's events and conditional effects, each
      converted, in declaration order, with none dropped. */
  lemma ConversionEvents(sd: SpanDefinition, lib: Library)
    requires Conversion(sd, lib).Ok?
    ensures var t := Conversion(sd, lib).value;
            && |t.events| == |sd.events|
            && (forall i :: 0 <= i < |sd.events| ==> ConfigEvent.To(sd.events[i], lib) == Ok(t.events[i]))
            && |t.conditionalDefinitions| == |sd.conditionalEffects|
            && (forall i :: 0 <= i < |sd.conditionalEffects| ==>
                  ConfigConditionalEffect.Conversion(sd.conditionalEffects[i], lib) == Ok(t.conditionalDefinitions[i]))
  {
    ConversionUnfold(sd, lib);
    MapResultsMeaning(sd.events, EventConverter(lib));
    MapResultsMeaning(sd.conditionalEffects, ConditionalEffectConverter(lib));
  }

  /** A span converts exactly when every part of it does. */
  lemma ConversionOk(sd: SpanDefinition, lib: Library)
    ensures Conversion(sd, lib).Ok? <==>
              && ConfigDelay.To(sd.delay, lib).Ok?
              && ConfigDuration.To(sd.duration, lib).Ok?
              && (sd.ref.Some? ==> lib.newExternalId(sd.ref.value).Pass?)
              && (sd.parent.Some? ==> lib.newExternalId(sd.parent.value).Pass?)
              && (forall i :: 0 <= i < |sd.links| ==> lib.newExternalId(sd.links[i]).Pass?)
              && (forall i :: 0 <= i < |sd.children| ==> Conversion(sd.children[i], lib).Ok?)
              && (forall i :: 0 <= i < |sd.events| ==> ConfigEvent.To(sd.events[i], lib).Ok?)
              && (forall i :: 0 <= i < |sd.conditionalEffects| ==>
                    ConfigConditionalEffect.Conversion(sd.conditionalEffects[i], lib).Ok?)
  {
    MapResultsMeaning(sd.links, ExternalIdConverter(lib));
    ConversionsMeaning(sd.children, lib);
    MapResultsMeaning(sd.events, EventConverter(lib));
    MapResultsMeaning(sd.conditionalEffects, ConditionalEffectConverter(lib));
    assert forall i :: 0 <= i < |sd.links| ==>
      (ExternalIdConverter(lib)(sd.links[i]).Ok? <==> lib.newExternalId(sd.links[i]).Pass?);
    assert forall i :: 0 <= i < |sd.events| ==>
      EventConverter(lib)(sd.events[i]) == ConfigEvent.To(sd.events[i], lib);
    assert forall i :: 0 <= i < |sd.conditionalEffects| ==>
      ConditionalEffectConverter(lib)(sd.conditionalEffects[i]) == ConfigConditionalEffect.Conversion(sd.conditionalEffects[i], lib);
  }

  /** `SpanDefinition.To`: links, children and events are written by index
      into freshly allocated arrays, conditional effects appended one by one;
      children are converted by recursion. */
  method To(sd: SpanDefinition, lib: Library) returns (r: Result<TaskModel.Task>)
    ensures r == Conversion(sd, lib)
    decreases sd
  {
    var delay := ConfigDelay.To(sd.delay, lib);
    if delay.Err? {
      return Err(delay.error);
    }
    var duration := ConfigDuration.To(sd.duration, lib);
    if duration.Err? {
      return Err(duration.error);
    }
    var externalId: Option<DomainTask.ExternalId> := None;
    if sd.ref.Some? {
      var id := NewExternalId(sd.ref.value, lib);
      if id.Err? {
        return Err("invalid external ref: " + sd.ref.value);
      }
      externalId := Some(id.value);
    }
    var parentId: Option<DomainTask.ExternalId> := None;
    if sd.parent.Some? {
      var id := NewExternalId(sd.parent.value, lib);
      if id.Err? {
        return Err(id.error);
      }
      parentId := Some(id.value);
    }
    var linkIds := ConvertLinks(sd.links, lib);
    if linkIds.Err? {
      return Err(linkIds.error);
    }
    var children := ConvertChildren(sd, lib);
    if children.Err? {
      return Err(children.error);
    }
    var events := ConvertEvents(sd.events, lib);
    if events.Err? {
      return Err(events.error);
    }
    var conditionals := ConvertConditionalEffects(sd.conditionalEffects, lib);
    if conditionals.Err? {
      return Err(conditionals.error);
    }
    return Ok(TaskModel.Task(sd.name, externalId, delay.value, duration.value, sd.kind, sd.attributes,
                             children.value, parentId, linkIds.value, events.value, conditionals.value));
  }

  /** The links loop of `SpanDefinition.To`. */
  method ConvertLinks(links: seq<string>, lib: Library) returns (r: Result<seq<DomainTask.ExternalId>>)
    ensures r == MapResults(links, ExternalIdConverter(lib))
  {
    var f := ExternalIdConverter(lib);
    var ids := new DomainTask.ExternalId[|links|];
    assert links[0..] == links;
    PrependNil(MapResults(links, f));
    for j := 0 to |links|
      invariant MapResults(links, f) == Prepend(ids[..j], MapResults(links[j..], f))
    {
      MapResultsStep(links, j, f);
      var id := NewExternalId(links[j], lib);
      if id.Err? {
        return Err(id.error);
      }
      PrependOne(ids[..j], id.value, MapResults(links[j + 1..], f));
      ids[j] := id.value;
      assert ids[..j + 1] == ids[..j] + [id.value];
    }
    assert links[|links|..] == [] && ids[..|links|] == ids[..];
    PrependAll(ids[..]);
    return Ok(ids[..]);
  }

  /** The children loop of `SpanDefinition.To`: each child converted by
      recursion. */
  method ConvertChildren(sd: SpanDefinition, lib: Library) returns (r: Result<seq<TaskModel.Task>>)
    ensures r == Conversions(sd.children, lib)
    decreases sd, 0
  {
    var children := new TaskModel.Task[|sd.children|];
    assert sd.children[0..] == sd.children;
    PrependNil(Conversions(sd.children, lib));
    for i := 0 to |sd.children|
      invariant Conversions(sd.children, lib) == Prepend(children[..i], Conversions(sd.children[i..], lib))
    {
      assert sd.children[i..][0] == sd.children[i] && sd.children[i..][1..] == sd.children[i + 1..];
      var c := To(sd.children[i], lib);
      if c.Err? {
        return Err(c.error);
      }
      PrependOne(children[..i], c.value, Conversions(sd.children[i + 1..], lib));
      children[i] := c.value;
      assert children[..i + 1] == children[..i] + [c.value];
    }
    assert sd.children[|sd.children|..] == [] && children[..|sd.children|] == children[..];
    PrependAll(children[..]);
    return Ok(children[..]);
  }

  /** The events loop of `SpanDefinition.To`. */
  method ConvertEvents(events: seq<ConfigEvent.Event>, lib: Library) returns (r: Result<seq<DomainTask.Event>>)
    ensures r == MapResults(events, EventConverter(lib))
  {
    var f := EventConverter(lib);
    var out := new DomainTask.Event[|events|];
    assert events[0..] == events;
    PrependNil(MapResults(events, f));
    for i := 0 to |events|
      invariant MapResults(events, f) == Prepend(out[..i], MapResults(events[i..], f))
    {
      MapResultsStep(events, i, f);
      var d := ConfigEvent.To(events[i], lib);
      if d.Err? {
        return Err(d.error);
      }
      PrependOne(out[..i], d.value, MapResults(events[i + 1..], f));
      out[i] := d.value;
      assert out[..i + 1] == out[..i] + [d.value];
    }
    assert events[|events|..] == [] && out[..|events|] == out[..];
    PrependAll(out[..]);
    return Ok(out[..]);
  }

  /** The conditional effects loop of `SpanDefinition.To`, appending. */
  method ConvertConditionalEffects(effects: seq<ConfigConditionalEffect.ConditionalEffect>, lib: Library)
    returns (r: Result<seq<DomainTask.ConditionalDefinition>>)
    ensures r == MapResults(effects, ConditionalEffectConverter(lib))
  {
    var f := ConditionalEffectConverter(lib);
    var defs: seq<DomainTask.ConditionalDefinition> := [];
    assert effects[0..] == effects;
    PrependNil(MapResults(effects, f));
    for i := 0 to |effects|
      invariant MapResults(effects, f) == Prepend(defs, MapResults(effects[i..], f))
    {
      MapResultsStep(effects, i, f);
      var def := ConfigConditionalEffect.To(effects[i], lib);
      if def.Err? {
        return Err(def.error);
      }
      PrependOne(defs, def.value, MapResults(effects[i + 1..], f));
      defs := defs + [def.value];
    }
    assert effects[|effects|..] == [];
    PrependAll(defs);
    return Ok(defs);
  }

  /** The invalid-ref case the repository's tests check: with a valid delay
      and duration, the ref "^invalid$" is rejected by name. */
  lemma InvalidRefExample(sd: SpanDefinition, lib: Library)
    requires AgreesWithTests(lib)
    requires sd.ref == Some("^invalid$")
    requires ConfigDelay.To(sd.delay, lib).Ok? && ConfigDuration.To(sd.duration, lib).Ok?
    ensures Conversion(sd, lib) == Err("invalid external ref: ^invalid$")
  {
  }
}
