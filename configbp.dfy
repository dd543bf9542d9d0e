/** internal/config/blueprint/blueprint.go: the blueprint section of the
    configuration, which names the kind of blueprint and holds it. Only the
    "service" kind exists. */
module ConfigBlueprint {
  import opened Wrappers
  import opened Collaborators
  import ServiceBlueprint
  import TaskModel

  const DefaultBlueprintType: string := "service"

  /** `blueprint.Blueprint`: a type name and a service blueprint pointer
      that may be nil. */
  datatype Blueprint = Blueprint(blueprintType: string, serviceBlueprint: ServiceBlueprint.Blueprint?)

  /** `blueprint.Validate`: a "service" blueprint must be present and
      validate; any other type passes unchecked. */
  function Validate(bp: Blueprint, lib: Library): (r: Outcome)
    reads bp.serviceBlueprint
    ensures bp.blueprintType != "service" ==> r == Pass
    ensures bp.blueprintType == "service" && bp.serviceBlueprint == null ==>
              r == Fail("type is 'service' but service blueprint is nil")
    ensures bp.blueprintType == "service" && bp.serviceBlueprint != null ==>
              var inner := ServiceBlueprint.Validation(bp.serviceBlueprint.defaults, bp.serviceBlueprint.services, lib);
              && (inner.Pass? ==> r == Pass)
              && (inner.Fail? ==> r == Fail(Wrap("service blueprint validation failed", inner.error)))
  {
    if bp.blueprintType == "service" then
      if bp.serviceBlueprint == null then Fail("type is 'service' but service blueprint is nil")
      else
        match ServiceBlueprint.Validation(bp.serviceBlueprint.defaults, bp.serviceBlueprint.services, lib)
        case Fail(e) => Fail(Wrap("service blueprint validation failed", e))
        case Pass => Pass
    else Pass
  }

  /** A "service" blueprint validates exactly when it is present and
      well formed. */
  lemma ValidateMeaning(bp: Blueprint, lib: Library)
    requires bp.blueprintType == "service"
    ensures Validate(bp, lib).Pass? <==>
              bp.serviceBlueprint != null
              && ServiceBlueprint.WellFormed(bp.serviceBlueprint.defaults, bp.serviceBlueprint.services, lib)
  {
    if bp.serviceBlueprint != null {
      ServiceBlueprint.ValidationMeaning(bp.serviceBlueprint.defaults, bp.serviceBlueprint.services, lib);
    }
  }

  /** `Blueprint.To`: only the "service" type converts; it needs its service
      blueprint, which it prepares and converts. */
  method To(bp: Blueprint, lib: Library) returns (r: Result<TaskModel.ServiceBlueprint>)
    modifies bp.serviceBlueprint
    ensures bp.blueprintType != "service" ==> r == Err("unknown blueprint type: " + bp.blueprintType)
    ensures bp.blueprintType == "service" && bp.serviceBlueprint == null ==>
              r == Err("type is 'service' but service blueprint is nil")
    ensures bp.blueprintType == "service" && bp.serviceBlueprint != null ==>
              var sb := bp.serviceBlueprint;
              && sb.defaults == old(sb.defaults)
              && sb.services == ServiceBlueprint.Prepared(old(sb.services), sb.defaults)
              && r == ServiceBlueprint.Conversion(sb.services, lib)
    ensures bp.blueprintType != "service" && bp.serviceBlueprint != null ==> unchanged(bp.serviceBlueprint)
  {
    if bp.blueprintType == "service" {
      if bp.serviceBlueprint == null {
        return Err("type is 'service' but service blueprint is nil");
      }
      r := bp.serviceBlueprint.To(lib);
      return;
    }
    return Err("unknown blueprint type: " + bp.blueprintType);
  }

  /** `blueprint.Default`: a "service" blueprint with no defaults and no
      services. */
  method Default() returns (bp: Blueprint)
    ensures bp.blueprintType == DefaultBlueprintType
    ensures bp.serviceBlueprint != null && fresh(bp.serviceBlueprint)
    ensures bp.serviceBlueprint.defaults == ServiceBlueprint.NoDefaults && bp.serviceBlueprint.services == []
  {
    var sb := new ServiceBlueprint.Blueprint.Default();
    return Blueprint(DefaultBlueprintType, sb);
  }

  /** The default blueprint validates, whatever the parsers do. */
  lemma DefaultValidates(sb: ServiceBlueprint.Blueprint, lib: Library)
    requires sb.defaults == ServiceBlueprint.NoDefaults && sb.services == []
    ensures Validate(Blueprint(DefaultBlueprintType, sb), lib) == Pass
  {
  }
}
