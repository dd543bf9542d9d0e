/** internal/config/blueprint/service/conditionaleffect.go: a condition with
    the effects it triggers. */
module ConfigConditionalEffect {
  import opened Wrappers
  import DomainTask
  import opened Collaborators
  import ConfigCondition
  import ConfigEffect

  /** `service.ConditionalEffect`. */
  datatype ConditionalEffect = ConditionalEffect(condition: ConfigCondition.Condition, effects: seq<ConfigEffect.Effect>)

  /** `Effect.To` as a value, for the list conversion. */
  function EffectConverter(lib: Library): ConfigEffect.Effect -> Result<DomainTask.Effect>
  {
    e => ConfigEffect.To(e, lib)
  }

  /** What `ConditionalEffect.To` computes: the condition first (its error
      wrapped, the effects then not examined), then every effect in order
      (the first error wrapped), paired into a domain conditional definition. */
  function Conversion(c: ConditionalEffect, lib: Library): (r: Result<DomainTask.ConditionalDefinition>)
    ensures ConfigCondition.To(c.condition).Err? ==>
              r == Err(Wrap("failed to convert condition", ConfigCondition.To(c.condition).error))
    ensures r.Ok? <==>
              ConfigCondition.To(c.condition).Ok? && forall i :: 0 <= i < |c.effects| ==> ConfigEffect.To(c.effects[i], lib).Ok?
    ensures r.Ok? ==> r.value.condition == ConfigCondition.To(c.condition).value
    ensures r.Ok? ==> |r.value.effects| == |c.effects|
    ensures r.Ok? ==> forall i :: 0 <= i < |c.effects| ==> ConfigEffect.To(c.effects[i], lib) == Ok(r.value.effects[i])
    ensures ConfigCondition.To(c.condition).Ok? && r.Err? ==>
              exists i :: 0 <= i < |c.effects| && ConfigEffect.To(c.effects[i], lib).Err?
                && r.error == Wrap("failed to convert effect", ConfigEffect.To(c.effects[i], lib).error)
                && forall j :: 0 <= j < i ==> ConfigEffect.To(c.effects[j], lib).Ok?
  {
    match ConfigCondition.To(c.condition)
    case Err(e) => Err(Wrap("failed to convert condition", e))
    case Ok(condition) =>
      MapResultsMeaning(c.effects, EffectConverter(lib));
      match MapResults(c.effects, EffectConverter(lib))
      case Err(e) => Err(Wrap("failed to convert effect", e))
      case Ok(effects) => Ok(DomainTask.ConditionalDefinition(condition, effects))
  }

  /** `ConditionalEffect.To`: converts the condition, then appends each
      converted effect in turn. */
  method To(c: ConditionalEffect, lib: Library) returns (r: Result<DomainTask.ConditionalDefinition>)
    ensures r == Conversion(c, lib)
  {
    var condition := ConfigCondition.To(c.condition);
    if condition.Err? {
      return Err(Wrap("failed to convert condition", condition.error));
    }
    var f := EffectConverter(lib);
    var effects: seq<DomainTask.Effect> := [];
    assert c.effects[0..] == c.effects;
    PrependNil(MapResults(c.effects, f));
    for i := 0 to |c.effects|
      invariant MapResults(c.effects, f) == Prepend(effects, MapResults(c.effects[i..], f))
    {
      MapResultsStep(c.effects, i, f);
      var e := ConfigEffect.To(c.effects[i], lib);
      if e.Err? {
        return Err(Wrap("failed to convert effect", e.error));
      }
      PrependOne(effects, e.value, MapResults(c.effects[i + 1..], f));
      effects := effects + [e.value];
    }
    assert c.effects[|c.effects|..] == [];
    PrependAll(effects);
    return Ok(DomainTask.ConditionalDefinition(condition.value, effects));
  }
}
