/** internal/config/config.go: the receiver configuration and its
    validation, global settings first. */
module Config {
  import opened Wrappers
  import opened Collaborators
  import GlobalConfig
  import ConfigBlueprint

  /** `config.Config`. */
  datatype Config = Config(global: GlobalConfig.Global, blueprint: ConfigBlueprint.Blueprint)

  /** `Config.Validate`: the global settings, then the blueprint, each error
      prefixed with the section it comes from. */
  function Validate(cfg: Config, lib: Library): (r: Outcome)
    reads cfg.blueprint.serviceBlueprint
    ensures GlobalConfig.Validate(cfg.global).Fail? ==>
              r == Fail(Wrap("global validation failed", GlobalConfig.Validate(cfg.global).error))
    ensures GlobalConfig.Validate(cfg.global).Pass? && ConfigBlueprint.Validate(cfg.blueprint, lib).Fail? ==>
              r == Fail(Wrap("blueprint validation failed", ConfigBlueprint.Validate(cfg.blueprint, lib).error))
    ensures r.Pass? <==> GlobalConfig.Validate(cfg.global).Pass? && ConfigBlueprint.Validate(cfg.blueprint, lib).Pass?
  {
    match GlobalConfig.Validate(cfg.global)
    case Fail(e) => Fail(Wrap("global validation failed", e))
    case Pass =>
      match ConfigBlueprint.Validate(cfg.blueprint, lib)
      case Fail(e) => Fail(Wrap("blueprint validation failed", e))
      case Pass => Pass
  }

  /** A bad interval is reported whatever is wrong with the blueprint. */
  lemma GlobalErrorWins(cfg: Config, lib: Library)
    requires cfg.global.interval <= 0
    ensures Validate(cfg, lib) == Fail(Wrap("global validation failed", "global interval must be greater than 0"))
  {
  }
}
