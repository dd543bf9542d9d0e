/** internal/config/blueprint/service/blueprint.go: the service blueprint as
    configured, its validation, the in-place application of the default
    delay and duration, and its conversion. */
module ServiceBlueprint {
  import opened Wrappers
  import opened Collaborators
  import ConfigDelay
  import ConfigDuration
  import ConfigConditionalEffect
  import ConfigSpan
  import ConfigService
  import TaskModel

  type SpanDefinition = ConfigSpan.SpanDefinition
  type Service = ConfigService.Service

  /** `service.DefaultValues`. The conditional effects are declared but
      nothing in the blueprint reads them. */
  datatype DefaultValues = DefaultValues(
    delay: Option<ConfigDelay.Delay>,
    duration: Option<ConfigDuration.Duration>,
    conditionalEffects: seq<ConfigConditionalEffect.ConditionalEffect>)

  /** The defaults of `service.Default()`: nothing set. */
  const NoDefaults: DefaultValues := DefaultValues(None, None, [])

  // ---------------------------------------------------------------------
  // What `Blueprint.Validate` computes

  /** The delay and duration checks on one root span, after the defaults. */
  function CheckDefaults(d: DefaultValues, sd: SpanDefinition, lib: Library): Outcome
  {
    var delay := ConfigDelay.WithDefault(sd.delay, d.delay);
    var duration := ConfigDuration.WithDefault(sd.duration, d.duration);
    if delay.None? then Fail("span " + sd.name + " must have a delay value or global default")
    else if ConfigDelay.ValidateAfterDefaults(delay, lib).Fail? then
      Fail(Wrap("span " + sd.name + " has invalid delay", ConfigDelay.ValidateAfterDefaults(delay, lib).error))
    else if duration.None? then Fail("span " + sd.name + " must have a duration value or global default")
    else if ConfigDuration.ValidateAfterDefaults(duration, lib).Fail? then
      Fail(Wrap("span " + sd.name + " has invalid duration", ConfigDuration.ValidateAfterDefaults(duration, lib).error))
    else Pass
  }

  /** A root span passes the default checks exactly when its delay and its
      duration, each completed from the blueprint's default, validate; the
      delay is checked first, and a missing value names the span. */
  lemma CheckDefaultsMeaning(d: DefaultValues, sd: SpanDefinition, lib: Library)
    ensures var delay, duration := ConfigDelay.WithDefault(sd.delay, d.delay), ConfigDuration.WithDefault(sd.duration, d.duration);
            var r := CheckDefaults(d, sd, lib);
            && (r.Pass? <==> ConfigDelay.ValidateAfterDefaults(delay, lib).Pass? && ConfigDuration.ValidateAfterDefaults(duration, lib).Pass?)
            && (delay.None? ==> r == Fail("span " + sd.name + " must have a delay value or global default"))
            && (delay.Some? && ConfigDelay.ValidateAfterDefaults(delay, lib).Fail? ==>
                  r == Fail(Wrap("span " + sd.name + " has invalid delay", ConfigDelay.ValidateAfterDefaults(delay, lib).error)))
            && (ConfigDelay.ValidateAfterDefaults(delay, lib).Pass? && duration.None? ==>
                  r == Fail("span " + sd.name + " must have a duration value or global default"))
            && (ConfigDelay.ValidateAfterDefaults(delay, lib).Pass? && duration.Some? && ConfigDuration.ValidateAfterDefaults(duration, lib).Fail? ==>
                  r == Fail(Wrap("span " + sd.name + " has invalid duration", ConfigDuration.ValidateAfterDefaults(duration, lib).error)))
  {
  }

  /** The refs a single span contributes. */
  function RefOf(sd: SpanDefinition): set<string>
  {
    if sd.ref.Some? then {sd.ref.value} else {}
  }

  /** The checks on one root span of service `service`, given the refs seen
      so far; on success, the refs seen including this span's. */
  function CheckSpan(d: DefaultValues, service: string, sd: SpanDefinition, refs: set<string>, lib: Library): Result<set<string>>
  {
    if sd.name == "" then Err("span name cannot be empty in service " + service)
    else if sd.ref.Some? && sd.ref.value in refs then Err("duplicate span ref " + sd.ref.value + " found")
    else
      match CheckDefaults(d, sd, lib)
      case Fail(e) => Err(e)
      case Pass => Ok(refs + RefOf(sd))
  }

  /** The root spans of one service checked in order. */
  function CheckSpans(d: DefaultValues, service: string, sds: seq<SpanDefinition>, refs: set<string>, lib: Library)
    : Result<set<string>>
    decreases |sds|
  {
    if sds == [] then Ok(refs)
    else
      match CheckSpan(d, service, sds[0], refs, lib)
      case Err(e) => Err(e)
      case Ok(seen) => CheckSpans(d, service, sds[1..], seen, lib)
  }

  /** The services checked in order, sharing one set of refs. */
  function CheckServices(d: DefaultValues, ss: seq<Service>, refs: set<string>, lib: Library): Result<set<string>>
    decreases |ss|, 0
  {
    if ss == [] then Ok(refs)
    else if ss[0].name == "" then Err("service name cannot be empty")
    else ThenServices(d, CheckSpans(d, ss[0].name, ss[0].spanDefinitions, refs, lib), ss[1..], lib)
  }

  /** The rest of the services, once a service's spans have been checked. */
  function ThenServices(d: DefaultValues, spans: Result<set<string>>, rest: seq<Service>, lib: Library): Result<set<string>>
    decreases |rest|, 1
  {
    match spans
    case Err(e) => Err(e)
    case Ok(seen) => CheckServices(d, rest, seen, lib)
  }

  /** What `Blueprint.Validate` returns. */
  function Validation(d: DefaultValues, ss: seq<Service>, lib: Library): Outcome
  {
    match CheckServices(d, ss, {}, lib)
    case Err(e) => Fail(e)
    case Ok(_) => Pass
  }

  // ---------------------------------------------------------------------
  // A declarative reading of `Validation`

  /** The refs set on the spans `sds`. */
  function RefSet(sds: seq<SpanDefinition>): set<string>
  {
    if sds == [] then {}
    else RefOf(sds[0]) + RefSet(sds[1..])
  }

  /** No two of the spans `sds` carry the same ref. */
  predicate UniqueRefs(sds: seq<SpanDefinition>)
  {
    forall i, j :: 0 <= i < j < |sds| && sds[i].ref.Some? ==> sds[j].ref != sds[i].ref
  }

  /** The root spans of all services, service by service. */
  function RootSpans(ss: seq<Service>): seq<SpanDefinition>
  {
    if ss == [] then [] else ss[0].spanDefinitions + RootSpans(ss[1..])
  }

  /** A root span on its own is acceptable: it is named and its delay and
      duration, after the defaults, pass their checks. */
  predicate SpanAccepted(d: DefaultValues, sd: SpanDefinition, lib: Library)
  {
    sd.name != "" && CheckDefaults(d, sd, lib).Pass?
  }

  /** A blueprint `Validate` accepts: every service is named, every root span
      is acceptable, and no ref appears on two root spans anywhere. Nothing is
      required of the spans below the roots. */
  predicate WellFormed(d: DefaultValues, ss: seq<Service>, lib: Library)
  {
    var roots := RootSpans(ss);
    && (forall i :: 0 <= i < |ss| ==> ss[i].name != "")
    && (forall k :: 0 <= k < |roots| ==> SpanAccepted(d, roots[k], lib))
    && UniqueRefs(roots)
  }

  /** The same conditions, one span at a time, as the checks meet them. */
  predicate AllAccepted(d: DefaultValues, sds: seq<SpanDefinition>, lib: Library)
  {
    sds == [] || (SpanAccepted(d, sds[0], lib) && AllAccepted(d, sds[1..], lib))
  }

  predicate NoRepeatedRefs(sds: seq<SpanDefinition>)
  {
    sds == [] || (RefOf(sds[0]) !! RefSet(sds[1..]) && NoRepeatedRefs(sds[1..]))
  }

  predicate AllNamed(ss: seq<Service>)
  {
    ss == [] || (ss[0].name != "" && AllNamed(ss[1..]))
  }

  lemma {:induction false} RefSetMembers(sds: seq<SpanDefinition>)
    ensures forall x :: x in RefSet(sds) <==> exists i :: 0 <= i < |sds| && sds[i].ref == Some(x)
  {
    if sds != [] {
      RefSetMembers(sds[1..]);
      assert forall i :: 1 <= i < |sds| ==> sds[i] == sds[1..][i - 1];
    }
  }

  lemma {:induction false} UniqueRefsRecursive(sds: seq<SpanDefinition>)
    ensures UniqueRefs(sds) <==> NoRepeatedRefs(sds)
  {
    if sds != [] {
      var rest := sds[1..];
      UniqueRefsRecursive(rest);
      RefSetMembers(rest);
      assert forall i :: 1 <= i < |sds| ==> sds[i] == rest[i - 1];
      if UniqueRefs(sds) {
        assert UniqueRefs(rest) by {
          forall i, j | 0 <= i < j < |rest| && rest[i].ref.Some?
            ensures rest[j].ref != rest[i].ref
          {
            assert rest[i] == sds[i + 1] && rest[j] == sds[j + 1];
          }
        }
      }
    }
  }

  lemma {:induction false} AllAcceptedForall(d: DefaultValues, sds: seq<SpanDefinition>, lib: Library)
    ensures AllAccepted(d, sds, lib) <==> forall k :: 0 <= k < |sds| ==> SpanAccepted(d, sds[k], lib)
  {
    if sds != [] {
      AllAcceptedForall(d, sds[1..], lib);
      assert forall k :: 1 <= k < |sds| ==> sds[k] == sds[1..][k - 1];
    }
  }

  lemma {:induction false} AllNamedForall(ss: seq<Service>)
    ensures AllNamed(ss) <==> forall i :: 0 <= i < |ss| ==> ss[i].name != ""
  {
    if ss != [] {
      AllNamedForall(ss[1..]);
      assert forall i :: 1 <= i < |ss| ==> ss[i] == ss[1..][i - 1];
    }
  }

  /** The span conditions split over a concatenation. */
  lemma {:induction false} AppendParts(d: DefaultValues, a: seq<SpanDefinition>, b: seq<SpanDefinition>, lib: Library)
    ensures RefSet(a + b) == RefSet(a) + RefSet(b)
    ensures NoRepeatedRefs(a + b) <==> NoRepeatedRefs(a) && NoRepeatedRefs(b) && RefSet(a) !! RefSet(b)
    ensures AllAccepted(d, a + b, lib) <==> AllAccepted(d, a, lib) && AllAccepted(d, b, lib)
  {
    if a == [] {
      assert a + b == b;
    } else {
      assert (a + b)[0] == a[0] && (a + b)[1..] == a[1..] + b;
      AppendParts(d, a[1..], b, lib);
    }
  }

  lemma {:induction false} CheckSpansMeaning(d: DefaultValues, service: string, sds: seq<SpanDefinition>, refs: set<string>, lib: Library)
    ensures CheckSpans(d, service, sds, refs, lib).Ok? <==>
              AllAccepted(d, sds, lib) && NoRepeatedRefs(sds) && RefSet(sds) !! refs
    ensures CheckSpans(d, service, sds, refs, lib).Ok? ==> CheckSpans(d, service, sds, refs, lib).value == refs + RefSet(sds)
    decreases |sds|
  {
    if sds != [] {
      CheckSpansMeaning(d, service, sds[1..], refs + RefOf(sds[0]), lib);
    }
  }

  lemma {:induction false} CheckServicesMeaning(d: DefaultValues, ss: seq<Service>, refs: set<string>, lib: Library)
    ensures CheckServices(d, ss, refs, lib).Ok? <==>
              var roots := RootSpans(ss);
              AllNamed(ss) && AllAccepted(d, roots, lib) && NoRepeatedRefs(roots) && RefSet(roots) !! refs
    ensures CheckServices(d, ss, refs, lib).Ok? ==> CheckServices(d, ss, refs, lib).value == refs + RefSet(RootSpans(ss))
    decreases |ss|
  {
    if ss != [] {
      var sds := ss[0].spanDefinitions;
      AppendParts(d, sds, RootSpans(ss[1..]), lib);
      CheckSpansMeaning(d, ss[0].name, sds, refs, lib);
      CheckServicesMeaning(d, ss[1..], refs + RefSet(sds), lib);
    }
  }

  /** `Validate` accepts exactly the well-formed blueprints. */
  lemma ValidationMeaning(d: DefaultValues, ss: seq<Service>, lib: Library)
    ensures Validation(d, ss, lib).Pass? <==> WellFormed(d, ss, lib)
  {
    CheckServicesMeaning(d, ss, {}, lib);
    AllNamedForall(ss);
    AllAcceptedForall(d, RootSpans(ss), lib);
    UniqueRefsRecursive(RootSpans(ss));
  }

  /** Services with no span definitions validate whatever the defaults
      are, as long as they are named. */
  lemma {:induction false} EmptyServicesValidate(d: DefaultValues, ss: seq<Service>, refs: set<string>, lib: Library)
    requires forall i :: 0 <= i < |ss| ==> ss[i].name != "" && ss[i].spanDefinitions == []
    ensures CheckServices(d, ss, refs, lib) == Ok(refs)
    decreases |ss|
  {
    if ss != [] {
      EmptyServicesValidate(d, ss[1..], refs, lib);
    }
  }

  /** Two root spans that differ only below the root. */
  predicate SameRoot(a: SpanDefinition, b: SpanDefinition)
  {
    a.(children := []) == b.(children := [])
  }

  /** Two service lists that differ only below their root spans. */
  predicate SameRoots(ss: seq<Service>, tt: seq<Service>)
  {
    && |ss| == |tt|
    && forall i :: 0 <= i < |ss| ==>
         && ss[i].name == tt[i].name
         && |ss[i].spanDefinitions| == |tt[i].spanDefinitions|
         && forall k :: 0 <= k < |ss[i].spanDefinitions| ==> SameRoot(ss[i].spanDefinitions[k], tt[i].spanDefinitions[k])
  }

  lemma {:induction false} CheckSpansIgnoreChildren(d: DefaultValues, service: string, sds: seq<SpanDefinition>,
                                                    tds: seq<SpanDefinition>, refs: set<string>, lib: Library)
    requires |sds| == |tds| && forall k :: 0 <= k < |sds| ==> SameRoot(sds[k], tds[k])
    ensures CheckSpans(d, service, sds, refs, lib) == CheckSpans(d, service, tds, refs, lib)
    decreases |sds|
  {
    if sds != [] {
      var a, b := sds[0], tds[0];
      assert a.(children := []) == b.(children := []);
      assert a.name == b.name && a.ref == b.ref && a.delay == b.delay && a.duration == b.duration;
      assert CheckDefaults(d, a, lib) == CheckDefaults(d, b, lib);
      var r := CheckSpan(d, service, a, refs, lib);
      if r.Ok? {
        CheckSpansIgnoreChildren(d, service, sds[1..], tds[1..], r.value, lib);
      }
    }
  }

  lemma {:induction false} CheckServicesIgnoreChildren(d: DefaultValues, ss: seq<Service>, tt: seq<Service>,
                                                       refs: set<string>, lib: Library)
    requires SameRoots(ss, tt)
    ensures CheckServices(d, ss, refs, lib) == CheckServices(d, tt, refs, lib)
    decreases |ss|
  {
    if ss != [] {
      CheckSpansIgnoreChildren(d, ss[0].name, ss[0].spanDefinitions, tt[0].spanDefinitions, refs, lib);
      var r := CheckSpans(d, ss[0].name, ss[0].spanDefinitions, refs, lib);
      if r.Ok? {
        assert SameRoots(ss[1..], tt[1..]) by {
          forall i | 0 <= i < |ss| - 1
            ensures ss[1..][i] == ss[i + 1] && tt[1..][i] == tt[i + 1]
          {
          }
        }
        CheckServicesIgnoreChildren(d, ss[1..], tt[1..], r.value, lib);
      }
    }
  }

  /** `Validate` never looks below the root spans: two blueprints that
      differ only in their spans' children validate alike. */
  lemma ValidationIgnoresChildren(d: DefaultValues, ss: seq<Service>, tt: seq<Service>, lib: Library)
    requires SameRoots(ss, tt)
    ensures Validation(d, ss, lib) == Validation(d, tt, lib)
  {
    CheckServicesIgnoreChildren(d, ss, tt, {}, lib);
  }

  /** A root span with neither a delay nor a default delay is reported for
      its delay, whatever is wrong with its duration. */
  lemma MissingDelayFirst(d: DefaultValues, s: Service, lib: Library)
    requires s.name != "" && |s.spanDefinitions| == 1
    requires s.spanDefinitions[0].name != "" && s.spanDefinitions[0].delay.None? && d.delay.None?
    ensures Validation(d, [s], lib) == Fail("span " + s.spanDefinitions[0].name + " must have a delay value or global default")
  {
    var sd := s.spanDefinitions[0];
    var msg := "span " + sd.name + " must have a delay value or global default";
    assert ConfigDelay.WithDefault(sd.delay, d.delay).None?;
    assert CheckDefaults(d, sd, lib) == Fail(msg);
    assert CheckSpan(d, s.name, sd, {}, lib) == Err(msg);
    assert CheckSpans(d, s.name, s.spanDefinitions, {}, lib) == Err(msg);
    assert CheckServices(d, [s], {}, lib) == Err(msg);
  }

  /** A ref used by a root span of one service may not reappear on a root
      span of a later service. */
  lemma DuplicateRefAcrossServices(d: DefaultValues, s1: Service, s2: Service, lib: Library)
    requires s1.name != "" && s2.name != ""
    requires |s1.spanDefinitions| == 1 && |s2.spanDefinitions| == 1
    requires s1.spanDefinitions[0].ref.Some? && s2.spanDefinitions[0].ref == s1.spanDefinitions[0].ref
    requires s2.spanDefinitions[0].name != ""
    requires SpanAccepted(d, s1.spanDefinitions[0], lib)
    ensures Validation(d, [s1, s2], lib) == Fail("duplicate span ref " + s1.spanDefinitions[0].ref.value + " found")
  {
    var a, b := s1.spanDefinitions[0], s2.spanDefinitions[0];
    var seen := RefOf(a);
    var msg := "duplicate span ref " + a.ref.value + " found";
    assert CheckDefaults(d, a, lib) == Pass && {} + seen == seen;
    assert CheckSpan(d, s1.name, a, {}, lib) == Ok(seen);
    assert s1.spanDefinitions[1..] == [];
    assert CheckSpans(d, s1.name, s1.spanDefinitions, {}, lib) == Ok(seen);
    assert CheckSpan(d, s2.name, b, seen, lib) == Err(msg);
    assert CheckSpans(d, s2.name, s2.spanDefinitions, seen, lib) == Err(msg);
    assert CheckServices(d, [s2], seen, lib) == Err(msg);
    assert [s1, s2][1..] == [s2];
    assert CheckServices(d, [s1, s2], {}, lib) == Err(msg);
  }

  // ---------------------------------------------------------------------
  // What `Blueprint.prepare` does to the span definitions

  /** A span with the blueprint's default delay and duration applied, and
      the same done to its children, recursively. */
  function Defaulted(sd: SpanDefinition, d: DefaultValues): SpanDefinition
    decreases sd
  {
    sd.(delay := ConfigDelay.WithDefault(sd.delay, d.delay),
        duration := ConfigDuration.WithDefault(sd.duration, d.duration),
        children := DefaultedSpans(sd.children, d))
  }

  /** Each of the spans defaulted in place: same count, same order. */
  function DefaultedSpans(sds: seq<SpanDefinition>, d: DefaultValues): (r: seq<SpanDefinition>)
    ensures |r| == |sds|
    ensures forall i :: 0 <= i < |sds| ==> r[i] == Defaulted(sds[i], d)
    decreases sds
  {
    if sds == [] then []
    else [Defaulted(sds[0], d)] + DefaultedSpans(sds[1..], d)
  }

  /** The services with the defaults applied to their span definitions. */
  function Prepared(ss: seq<Service>, d: DefaultValues): (r: seq<Service>)
    ensures |r| == |ss|
    ensures forall i :: 0 <= i < |ss| ==>
              r[i] == ss[i].(spanDefinitions := DefaultedSpans(ss[i].spanDefinitions, d))
  {
    seq(|ss|, i requires 0 <= i < |ss| => ss[i].(spanDefinitions := DefaultedSpans(ss[i].spanDefinitions, d)))
  }

  /** The span reached from `sds` by following the child indexes of `path`. */
  function SpanAt(sds: seq<SpanDefinition>, path: seq<nat>): Option<SpanDefinition>
    decreases path
  {
    if path == [] || |sds| <= path[0] then None
    else if |path| == 1 then Some(sds[path[0]])
    else SpanAt(sds[path[0]].children, path[1..])
  }

  /** `prepare` reaches every depth: the span at any path exists after it
      exactly when it existed before, its delay and duration are completed
      from the defaults, and nothing else about it changes. */
  lemma {:induction false} DefaultedAt(sds: seq<SpanDefinition>, d: DefaultValues, path: seq<nat>)
    ensures SpanAt(DefaultedSpans(sds, d), path).Some? <==> SpanAt(sds, path).Some?
    ensures SpanAt(sds, path).Some? ==>
              var before, after := SpanAt(sds, path).value, SpanAt(DefaultedSpans(sds, d), path).value;
              && after.delay == ConfigDelay.WithDefault(before.delay, d.delay)
              && after.duration == ConfigDuration.WithDefault(before.duration, d.duration)
              && |after.children| == |before.children|
              && after.(delay := before.delay, duration := before.duration, children := before.children) == before
    decreases path
  {
    if path != [] && path[0] < |sds| && |path| > 1 {
      DefaultedAt(sds[path[0]].children, d, path[1..]);
    }
  }

  /** `prepare` over the whole blueprint: every service keeps its name and
      resource, and at every depth of every service the span at a path
      exists after it exactly when it existed before, with its delay and
      duration completed from the defaults and nothing else changed. */
  lemma PreparedAt(ss: seq<Service>, d: DefaultValues, i: nat, path: seq<nat>)
    requires i < |ss|
    ensures |Prepared(ss, d)| == |ss|
    ensures Prepared(ss, d)[i].name == ss[i].name && Prepared(ss, d)[i].resource == ss[i].resource
    ensures SpanAt(Prepared(ss, d)[i].spanDefinitions, path).Some? <==> SpanAt(ss[i].spanDefinitions, path).Some?
    ensures SpanAt(ss[i].spanDefinitions, path).Some? ==>
              var before, after := SpanAt(ss[i].spanDefinitions, path).value, SpanAt(Prepared(ss, d)[i].spanDefinitions, path).value;
              && after.delay == ConfigDelay.WithDefault(before.delay, d.delay)
              && after.duration == ConfigDuration.WithDefault(before.duration, d.duration)
              && after.(delay := before.delay, duration := before.duration, children := before.children) == before
  {
    DefaultedAt(ss[i].spanDefinitions, d, path);
  }

  /** Applying the defaults a second time changes nothing. */
  lemma {:induction false} DefaultedIdempotent(sd: SpanDefinition, d: DefaultValues)
    ensures Defaulted(Defaulted(sd, d), d) == Defaulted(sd, d)
    decreases sd, 1
  {
    ConfigDelay.WithDefaultIdempotent(sd.delay, d.delay);
    ConfigDuration.WithDefaultIdempotent(sd.duration, d.duration);
    DefaultedSpansIdempotent(sd.children, d);
  }

  lemma {:induction false} DefaultedSpansIdempotent(sds: seq<SpanDefinition>, d: DefaultValues)
    ensures DefaultedSpans(DefaultedSpans(sds, d), d) == DefaultedSpans(sds, d)
    decreases sds, 0
  {
    forall i | 0 <= i < |sds|
      ensures DefaultedSpans(DefaultedSpans(sds, d), d)[i] == DefaultedSpans(sds, d)[i]
    {
      DefaultedIdempotent(sds[i], d);
    }
  }

  /** The checks see the same delay and duration on a span whether or not
      the defaults have already been applied to it. */
  lemma CheckSpanDefaulted(d: DefaultValues, service: string, sd: SpanDefinition, refs: set<string>, lib: Library)
    ensures CheckSpan(d, service, Defaulted(sd, d), refs, lib) == CheckSpan(d, service, sd, refs, lib)
  {
    ConfigDelay.WithDefaultIdempotent(sd.delay, d.delay);
    ConfigDuration.WithDefaultIdempotent(sd.duration, d.duration);
    assert CheckDefaults(d, Defaulted(sd, d), lib) == CheckDefaults(d, sd, lib);
  }

  lemma {:induction false} CheckSpansDefaulted(d: DefaultValues, service: string, sds: seq<SpanDefinition>, refs: set<string>, lib: Library)
    ensures CheckSpans(d, service, DefaultedSpans(sds, d), refs, lib) == CheckSpans(d, service, sds, refs, lib)
    decreases |sds|
  {
    if sds != [] {
      var dsds := DefaultedSpans(sds, d);
      assert dsds[0] == Defaulted(sds[0], d) && dsds[1..] == DefaultedSpans(sds[1..], d);
      CheckSpanDefaulted(d, service, sds[0], refs, lib);
      var r := CheckSpan(d, service, sds[0], refs, lib);
      if r.Ok? {
        CheckSpansDefaulted(d, service, sds[1..], r.value, lib);
      }
    }
  }

  lemma {:induction false} CheckServicesPrepared(d: DefaultValues, ss: seq<Service>, refs: set<string>, lib: Library)
    ensures CheckServices(d, Prepared(ss, d), refs, lib) == CheckServices(d, ss, refs, lib)
    decreases |ss|
  {
    if ss != [] {
      var ps := Prepared(ss, d);
      assert ps[0].name == ss[0].name && ps[1..] == Prepared(ss[1..], d);
      CheckSpansDefaulted(d, ss[0].name, ss[0].spanDefinitions, refs, lib);
      var r := CheckSpans(d, ss[0].name, ss[0].spanDefinitions, refs, lib);
      if r.Ok? {
        CheckServicesPrepared(d, ss[1..], r.value, lib);
      }
    }
  }

  /** `prepare` does not change what `Validate` says. */
  lemma ValidationPrepared(d: DefaultValues, ss: seq<Service>, lib: Library)
    ensures Validation(d, Prepared(ss, d), lib) == Validation(d, ss, lib)
  {
    CheckServicesPrepared(d, ss, {}, lib);
  }

  /** The inner closure of `prepare`: overwrite the delay and duration of
      each span through the slice, then do the same to its children. */
  method ApplyDefaults(spans: array<SpanDefinition>, d: DefaultValues)
    modifies spans
    ensures spans[..] == DefaultedSpans(old(spans[..]), d)
    decreases spans[..]
  {
    ghost var before := spans[..];
    for i := 0 to spans.Length
      invariant forall k :: 0 <= k < i ==> spans[k] == Defaulted(before[k], d)
      invariant forall k :: i <= k < spans.Length ==> spans[k] == before[k]
    {
      var sd := spans[i];
      var childSpans := new SpanDefinition[|sd.children|](j requires 0 <= j < |sd.children| => sd.children[j]);
      assert childSpans[..] == sd.children;
      ApplyDefaults(childSpans, d);
      spans[i] := sd.(delay := ConfigDelay.WithDefault(sd.delay, d.delay),
                      duration := ConfigDuration.WithDefault(sd.duration, d.duration),
                      children := childSpans[..]);
    }
  }

  /** A run of `n` zero-valued services. */
  function Zeros(n: nat): seq<TaskModel.Service>
  {
    seq(n, _ => TaskModel.ZeroService)
  }

  function ServiceConverter(lib: Library): Service -> Result<TaskModel.Service>
  {
    s => ConfigService.Conversion(s, lib)
  }

  /** What `Blueprint.To` returns for already-prepared services: `make`
      with length `n` followed by `append` leaves `n` zero-valued services
      ahead of the converted ones. */
  function Conversion(ss: seq<Service>, lib: Library): Result<TaskModel.ServiceBlueprint>
  {
    match MapResults(ss, ServiceConverter(lib))
    case Err(e) => Err(e)
    case Ok(converted) => Ok(TaskModel.ServiceBlueprint(Zeros(|ss|) + converted))
  }

  /** The converted blueprint holds `n` zero-valued services followed by the
      `n` services converted in order; or the first service's error. */
  lemma ConversionMeaning(ss: seq<Service>, lib: Library)
    ensures var r := Conversion(ss, lib);
            && (r.Ok? <==> forall i :: 0 <= i < |ss| ==> ConfigService.Conversion(ss[i], lib).Ok?)
            && (r.Ok? ==> |r.value.services| == 2 * |ss|)
            && (r.Ok? ==> forall i :: 0 <= i < |ss| ==> r.value.services[i] == TaskModel.ZeroService)
            && (r.Ok? ==> forall i :: 0 <= i < |ss| ==> ConfigService.Conversion(ss[i], lib) == Ok(r.value.services[|ss| + i]))
            && (r.Err? ==> exists i :: 0 <= i < |ss| && ConfigService.Conversion(ss[i], lib) == Err(r.error)
                                    && forall j :: 0 <= j < i ==> ConfigService.Conversion(ss[j], lib).Ok?)
  {
    MapResultsMeaning(ss, ServiceConverter(lib));
    assert forall i :: 0 <= i < |ss| ==> ServiceConverter(lib)(ss[i]) == ConfigService.Conversion(ss[i], lib);
  }

  /** The conversion loop of `Blueprint.To`: `services` starts as `n`
      zero values and each converted service is appended. */
  method ConvertServices(ss: seq<Service>, lib: Library) returns (r: Result<TaskModel.ServiceBlueprint>)
    ensures r == Conversion(ss, lib)
  {
    var f := ServiceConverter(lib);
    var out := Zeros(|ss|);
    ghost var converted: seq<TaskModel.Service> := [];
    assert ss[0..] == ss;
    PrependNil(MapResults(ss, f));
    for i := 0 to |ss|
      invariant out == Zeros(|ss|) + converted
      invariant MapResults(ss, f) == Prepend(converted, MapResults(ss[i..], f))
    {
      MapResultsStep(ss, i, f);
      var s := ConfigService.To(ss[i], lib);
      if s.Err? {
        return Err(s.error);
      }
      PrependOne(converted, s.value, MapResults(ss[i + 1..], f));
      converted := converted + [s.value];
      out := out + [s.value];
    }
    assert ss[|ss|..] == [];
    PrependAll(converted);
    return Ok(TaskModel.ServiceBlueprint(out));
  }

  // ---------------------------------------------------------------------
  // The blueprint object

  class Blueprint {
    var defaults: DefaultValues
    var services: seq<Service>

    /** `service.Default()`: no defaults and no services. */
    constructor Default()
      ensures defaults == NoDefaults && services == []
    {
      defaults := NoDefaults;
      services := [];
    }

    /** `Blueprint.Validate`: walks the services and their root spans,
        recording every ref in a set. */
    method Validate(lib: Library) returns (err: Outcome)
      ensures err == Validation(defaults, services, lib)
    {
      var refs: set<string> := {};
      for i := 0 to |services|
        invariant CheckServices(defaults, services, {}, lib) == CheckServices(defaults, services[i..], refs, lib)
      {
        var s := services[i];
        assert services[i..][0] == s && services[i..][1..] == services[i + 1..];
        if s.name == "" {
          return Fail("service name cannot be empty");
        }
        var sds := s.spanDefinitions;
        assert sds[0..] == sds;
        for j := 0 to |sds|
          invariant CheckServices(defaults, services, {}, lib)
                      == ThenServices(defaults, CheckSpans(defaults, s.name, sds[j..], refs, lib), services[i + 1..], lib)
        {
          var sd := sds[j];
          assert sds[j..][0] == sd && sds[j..][1..] == sds[j + 1..];
          ghost var seen := refs;
          if sd.name == "" {
            return Fail("span name cannot be empty in service " + s.name);
          }
          if sd.ref.Some? {
            if sd.ref.value in refs {
              return Fail("duplicate span ref " + sd.ref.value + " found");
            } else {
              refs := refs + {sd.ref.value};
            }
          }
          var delay := ConfigDelay.WithDefault(sd.delay, defaults.delay);
          if delay.None? {
            return Fail("span " + sd.name + " must have a delay value or global default");
          }
          var delayErr := ConfigDelay.ValidateAfterDefaults(delay, lib);
          if delayErr.Fail? {
            return Fail(Wrap("span " + sd.name + " has invalid delay", delayErr.error));
          }
          var duration := ConfigDuration.WithDefault(sd.duration, defaults.duration);
          if duration.None? {
            return Fail("span " + sd.name + " must have a duration value or global default");
          }
          var durationErr := ConfigDuration.ValidateAfterDefaults(duration, lib);
          if durationErr.Fail? {
            return Fail(Wrap("span " + sd.name + " has invalid duration", durationErr.error));
          }
          assert CheckDefaults(defaults, sd, lib) == Pass && refs == seen + RefOf(sd);
          assert CheckSpan(defaults, s.name, sd, seen, lib) == Ok(refs);
        }
        assert sds[|sds|..] == [];
      }
      assert services[|services|..] == [];
      return Pass;
    }

    /** `Blueprint.prepare`: the defaults applied, in place, to every span
        definition of every service at every depth. */
    method Prepare()
      modifies this
      ensures defaults == old(defaults)
      ensures services == Prepared(old(services), defaults)
    {
      ghost var before := services;
      for i := 0 to |services|
        invariant defaults == old(defaults)
        invariant |services| == |before|
        invariant forall k :: 0 <= k < i ==> services[k] == Prepared(before, defaults)[k]
        invariant forall k :: i <= k < |services| ==> services[k] == before[k]
      {
        var s := services[i];
        var sds := new SpanDefinition[|s.spanDefinitions|](j requires 0 <= j < |s.spanDefinitions| => s.spanDefinitions[j]);
        assert sds[..] == s.spanDefinitions;
        ApplyDefaults(sds, defaults);
        services := services[i := s.(spanDefinitions := sds[..])];
      }
    }

    /** `Blueprint.To`: prepare, then convert each service in order; the
        first error is returned. */
    method To(lib: Library) returns (r: Result<TaskModel.ServiceBlueprint>)
      modifies this
      ensures defaults == old(defaults)
      ensures services == Prepared(old(services), defaults)
      ensures r == Conversion(services, lib)
    {
      Prepare();
      r := ConvertServices(services, lib);
    }
  }
}
