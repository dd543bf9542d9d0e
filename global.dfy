/** internal/config/global/global.go: settings shared by the whole
    simulation, of which only the generation interval is modelled. */
module GlobalConfig {
  import opened Wrappers
  import DomainTask

  /** `global.Global`: the interval at which traces are generated, in
      nanoseconds (a Go `time.Duration`). */
  datatype Global = Global(interval: int)

  /** Five seconds. */
  const DefaultInterval: int := 5 * DomainTask.Second

  /** `global.Validate`: the interval must be positive. */
  function Validate(g: Global): (r: Outcome)
    ensures r.Pass? <==> g.interval > 0
    ensures r.Fail? ==> r.error == "global interval must be greater than 0"
  {
    if g.interval <= 0 then Fail("global interval must be greater than 0") else Pass
  }

  /** `global.Default`. */
  function Default(): (g: Global)
    ensures g.interval == 5_000_000_000
  {
    Global(DefaultInterval)
  }

  /** The default settings validate. */
  lemma DefaultValidates()
    ensures Validate(Default()) == Pass
  {
  }
}
