# Trace simulation receiver: blueprint configuration pipeline in Dafny

This project models the part of the trace simulation receiver that turns
its configuration into domain objects. The configuration holds global
settings and a service blueprint: services, their span definitions,
delays, durations, events and conditional effects. The model covers the
following.

- **Defaulting and validation of delays and durations.**
  - `WithDefault` completes a span's delay or duration field by field from the blueprint default, using `Coalesce`.
  - `ValidateAfterDefaults` runs its checks in a fixed order: present, value, mode, parse, sign.
  - The mode string selects an absolute or relative time expression (`FromString`, `SpanDuration.To`, `TaskDuration.To`).
- **The service blueprint.**
  - `Validate` walks the services and their root spans and records refs in a set.
  - `prepare` applies the defaults in place at every depth.
  - `To` converts the services after preparing them. As written, it leaves `len(Services)` zero-valued services ahead of the converted ones. The model keeps that behaviour.
  - `Default` builds the empty blueprint.
- **The recursive conversion.** Span definition to task, then service, event, condition, effect and conditional effect. Each is a closed dispatch with its own error messages.
- **The top level.** The blueprint type dispatch, the global interval check, and the ordered validation of the whole configuration.
- **The domain tree.** `Task.ToRootNodeWithResource` builds it. Only the root keeps its parent reference, and every node carries the service resource.
- **Span effects.** `FromEffectSpec` dispatches on the effect kind. `AnnotateEffect.Apply` merges attributes into a node in place.
- **Delay resolution**, as the delay tests of the task package exercise it.

Errors are modelled by their messages. `fmt.Errorf("p: %w", e)` is `Wrap(p, e)`.

Library parsers and domain constructors whose code is not shown are fields of a `Library` value passed to every conversion:
- `time.ParseDuration`
- `strconv.ParseFloat`
- `taskduration.New*`
- the checks of `task.NewDelay` and `task.NewDuration` on a non-nil expression
- `task.NewExternalID`
- `TreeNode.AddChild`
- `span.FromRecordEventEffect`

Every property holds for any behaviour of these. Where a property needs a particular behaviour, its lemma says so in a `requires`:
- `AgreesWithTests` states what the repository's tests rely on.
- `ConstructorsAccept` says the constructors accept every value that passes validation.

Imperative parts of the source are methods proved against value-level specification functions:
- The blueprint's `Validate`, `prepare` and `To`.
- The loops of `SpanDefinition.To`, `Service.To` and `ConditionalEffect.To`.
- The tree-building loops.
- `AnnotateEffect.Apply`.

The service blueprint is a class whose methods update its fields. `prepare` rewrites the span definitions through an array of slots, as the Go code does through a slice of pointers. The domain tree node is a class with a ghost model and footprint.

## Model

| member | source | states |
|---|---|---|
| Utils.Coalesce | internal/config/utils/coalesce.go:4-9 | the result is one of the two arguments; it is set iff either is; it is `primary` whenever that is set |
| Utils.CoalesceFallback | internal/config/utils/coalesce.go:8 | with `primary` nil the result is the fallback, so two nils give nil |
| Utils.CoalesceIdempotent | internal/config/utils/coalesce.go:4-9 | coalescing a value with itself, or coalescing again with the same fallback, changes nothing |
| Modes.FromString | internal/config/blueprint/service/spanduration.go:22-31 | exactly "absolute" and "relative" name their modes; every other string is the unknown mode |
| Modes.FromStringRoundTrip | internal/config/blueprint/service/taskduration.go:13-31 | the name of each of the three modes maps back to that mode |
| Modes.SpanDurationTo | internal/config/blueprint/service/spanduration.go:42-68 | succeeds iff the value parses in the mode and the constructor accepts it; the expression kind matches the mode; parse errors are wrapped as "invalid absolute/relative span duration"; a constructor error is wrapped as "failed to create absolute/relative span duration"; the unknown mode and any other mode fail with their distinct messages |
| Modes.TaskDurationTo | internal/config/blueprint/service/taskduration.go:42-68 | the same dispatch with the task-flavoured messages, including "failed to create absolute/relative task duration" for a constructor error |
| ConfigDelay.ValidateAfterDefaults | internal/config/blueprint/service/delay.go:43-74 | passes iff the delay is present, both fields are set, the value parses in its mode and is non-negative; each failing check, taken in order, gives its own message; an unknown mode names itself |
| ConfigDelay.WithDefault | internal/config/blueprint/service/delay.go:77-88 | a nil delay gives the default, a nil default gives the delay; otherwise each field is the delay's own when set and the default's otherwise |
| ConfigDelay.WithDefaultIdempotent | internal/config/blueprint/service/delay.go:77-88 | applying the same default twice is applying it once |
| ConfigDelay.WithDefaultComplete | internal/config/blueprint/service/delay.go:80-85 | a delay with both fields set ignores the default |
| ConfigDelay.To | internal/config/blueprint/service/delay.go:20-37 | a validation error passes through unchanged; success iff the delay is well formed and constructible; the expression is the parsed one and is non-negative; a conversion error is wrapped as "failed to convert delay" and a constructor error as "failed to create delay" |
| ConfigDelay.ValidatedConverts | internal/config/blueprint/service/delay.go:20-37 | with constructors that accept every non-negative expression, a validated delay always converts |
| ConfigDelay.ValidateExamples | internal/config/blueprint/service/delay.go:43-71 | zero is accepted and -1ns rejected in absolute mode; a missing value is reported before a missing mode; parse errors are wrapped |
| ConfigDuration.ValidateAfterDefaults | internal/config/blueprint/service/duration.go:43-74 | as for delays, with a strictly positive bound: zero is rejected in both modes |
| ConfigDuration.WithDefault | internal/config/blueprint/service/duration.go:77-88 | field-by-field completion from the default, the duration's own field winning |
| ConfigDuration.WithDefaultIdempotent | internal/config/blueprint/service/duration.go:77-88 | applying the same default twice is applying it once |
| ConfigDuration.WithDefaultComplete | internal/config/blueprint/service/duration.go:80-85 | a duration with both fields set ignores the default |
| ConfigDuration.To | internal/config/blueprint/service/duration.go:20-37 | a validation error passes through; success iff well formed and constructible; the expression is positive; conversion errors are wrapped as "failed to convert duration" and constructor errors as "failed to create duration" |
| ConfigDuration.ValidatedConverts | internal/config/blueprint/service/duration.go:20-37 | with accepting constructors, a validated duration always converts |
| ConfigDuration.ValidateExamples | internal/config/blueprint/service/duration.go:43-71 | "0" and "-1ns" are rejected in absolute mode; value before mode; parse errors are wrapped |
| ConfigEvent.To | internal/config/blueprint/service/event.go:12-20 | converts iff the delay converts, with the delay's error otherwise; name and attributes are kept; the delay obeys the delay rules |
| ConfigEvent.EventDelayRules | internal/config/blueprint/service/event.go:12-16 | an event without a delay value fails with "missing required field: delay.for"; a negative absolute delay is rejected; a zero delay converts iff the expression and delay constructors accept zero |
| ConfigCondition.To | internal/config/blueprint/service/condition.go:25-42 | succeeds iff the kind is "probabilistic" with a threshold in [0, 1], or "childMarkedAsFailed"; the latter gives AtLeast(1, Child(MarkedAsFailed)); each failure has its message; an unknown kind names itself |
| ConfigCondition.ConditionExamples | internal/config/blueprint/service/condition.go:26-40 | 0 and 1 are accepted, -0.1 and 1.5 rejected, and kind matching is case sensitive |
| ConfigEffect.To | internal/config/blueprint/service/effect.go:38-56 | each known kind yields the matching domain effect carrying only its own payload; a record-event error is wrapped; an unknown kind names itself |
| ConfigEffect.OnlyMatchingPayloadRead | internal/config/blueprint/service/effect.go:39-55 | only the payload the kind names is read |
| ConfigConditionalEffect.Conversion | internal/config/blueprint/service/conditionaleffect.go:17-37 | a condition error is wrapped as "failed to convert condition" and the effects are not looked at; otherwise succeeds iff every effect converts, keeping count and order; the first failing effect's error is wrapped as "failed to convert effect" |
| ConfigConditionalEffect.To | internal/config/blueprint/service/conditionaleffect.go:17-37 | the append loop computes exactly that conversion |
| Collaborators.NewExternalId | internal/config/blueprint/service/spandefinition.go:60-79 | the id holds the value when the library accepts it, and the library's error otherwise |
| ConfigSpan.RefId | internal/config/blueprint/service/spandefinition.go:60-65 | no ref gives no id; a rejected ref fails with "invalid external ref: <ref>", dropping the library's error |
| ConfigSpan.ParentId | internal/config/blueprint/service/spandefinition.go:66-71 | no parent gives no id; a rejected parent passes the library's error through |
| ConfigSpan.ConversionsMeaning | internal/config/blueprint/service/spandefinition.go:81-90 | the children convert iff each child does, in order with the count kept; otherwise the first failing child's error |
| ConfigSpan.ConversionErrorOrder | internal/config/blueprint/service/spandefinition.go:52-65 | a delay error wins over everything, a duration error over the rest, and an invalid ref is reported by name |
| ConfigSpan.ConversionIds | internal/config/blueprint/service/spandefinition.go:60-80 | a converted task keeps name, kind and attributes; its id comes from the ref, its parent reference from the parent, and its links from the links in order |
| ConfigSpan.ConversionUnfold | internal/config/blueprint/service/spandefinition.go:110-122 | a converted task is assembled from its converted parts |
| ConfigSpan.ConversionChildren | internal/config/blueprint/service/spandefinition.go:52-90 | a converted task holds the converted delay and duration, and the children converted in order with none dropped |
| ConfigSpan.ConversionEvents | internal/config/blueprint/service/spandefinition.go:91-108 | a converted task holds the events and conditional effects, converted in declaration order with none dropped |
| ConfigSpan.ConversionOk | internal/config/blueprint/service/spandefinition.go:46-123 | a span converts iff every part converts: delay, duration, ref, parent, every link, child, event and conditional effect |
| ConfigSpan.InvalidRefExample | internal/config/blueprint/service/spandefinition.go:60-65 | with a valid delay and duration, the ref "^invalid$" fails with "invalid external ref: ^invalid$" |
| ConfigSpan.To | internal/config/blueprint/service/spandefinition.go:46-123 | the method, with its indexed and appending loops and its recursion, computes exactly the conversion above |
| ConfigSpan.ConvertLinks | internal/config/blueprint/service/spandefinition.go:72-80 | the indexed links loop converts every link in order or returns the first error |
| ConfigSpan.ConvertChildren | internal/config/blueprint/service/spandefinition.go:81-90 | the indexed children loop converts every child by recursion, in order |
| ConfigSpan.ConvertEvents | internal/config/blueprint/service/spandefinition.go:91-100 | the indexed events loop converts every event in order |
| ConfigSpan.ConvertConditionalEffects | internal/config/blueprint/service/spandefinition.go:101-108 | the append loop converts every conditional effect in order |
| ConfigService.Conversion | internal/config/blueprint/service/service.go:18-33 | succeeds iff every root span converts; name and resource are copied; the tasks keep the count and order of the span definitions; otherwise the first failing span's error; no span definitions give an empty task list |
| ConfigService.To | internal/config/blueprint/service/service.go:18-33 | the append loop computes exactly that conversion |
| ServiceBlueprint.CheckDefaultsMeaning | internal/config/blueprint/service/blueprint.go:47-60 | a root span passes iff its delay and its duration, each completed from the default, validate; a missing delay is reported before any duration problem; each message names the span |
| ServiceBlueprint.ValidationMeaning | internal/config/blueprint/service/blueprint.go:30-64 | validation passes iff every service is named, every root span is named and passes the default checks, and no ref appears on two root spans across all services |
| ServiceBlueprint.CheckSpansMeaning | internal/config/blueprint/service/blueprint.go:36-61 | the spans of one service pass iff each is acceptable, their refs are distinct and none was seen before; the refs seen afterwards are the old ones plus theirs |
| ServiceBlueprint.CheckServicesMeaning | internal/config/blueprint/service/blueprint.go:32-62 | the services pass iff all are named and their root spans together are acceptable with distinct refs |
| ServiceBlueprint.UniqueRefsRecursive | internal/config/blueprint/service/blueprint.go:40-46 | pairwise-distinct refs are exactly what the one-set-at-a-time check enforces |
| ServiceBlueprint.RefSetMembers | internal/config/blueprint/service/blueprint.go:40-46 | the recorded set holds exactly the refs of the spans seen |
| ServiceBlueprint.AppendParts | internal/config/blueprint/service/blueprint.go:32-36 | the ref set, distinctness and acceptability split over the spans of consecutive services |
| ServiceBlueprint.AllAcceptedForall | internal/config/blueprint/service/blueprint.go:36-61 | the span-by-span checks accept exactly the lists whose every span is acceptable |
| ServiceBlueprint.AllNamedForall | internal/config/blueprint/service/blueprint.go:32-35 | the service-by-service name check accepts exactly the lists whose every service is named |
| ServiceBlueprint.EmptyServicesValidate | internal/config/blueprint/service/blueprint.go:32-36 | named services without span definitions validate whatever the defaults are, and no refs are recorded |
| ServiceBlueprint.ValidationIgnoresChildren | internal/config/blueprint/service/blueprint.go:36-61 | validation never looks below the root spans: blueprints that differ only in children validate alike |
| ServiceBlueprint.CheckSpansIgnoreChildren | internal/config/blueprint/service/blueprint.go:36-61 | the same for the spans of one service |
| ServiceBlueprint.CheckServicesIgnoreChildren | internal/config/blueprint/service/blueprint.go:32-62 | the same for a list of services and a set of refs already seen |
| ServiceBlueprint.MissingDelayFirst | internal/config/blueprint/service/blueprint.go:47-50 | a span with no delay and no default delay fails for its delay, whatever its duration |
| ServiceBlueprint.DuplicateRefAcrossServices | internal/config/blueprint/service/blueprint.go:40-43 | a ref repeated on a root span of a later service fails with "duplicate span ref <ref> found" |
| ServiceBlueprint.Blueprint.Validate | internal/config/blueprint/service/blueprint.go:30-64 | the nested loops with the refs set compute exactly that validation |
| ServiceBlueprint.DefaultedSpans | internal/config/blueprint/service/blueprint.go:84-94 | defaulting a slice keeps its length and order and defaults each span |
| ServiceBlueprint.PreparedAt | internal/config/blueprint/service/blueprint.go:82-104 | every service keeps its name and resource; in every service, at every depth, a span exists after `prepare` iff it did before, with delay and duration completed from the defaults and nothing else changed |
| ServiceBlueprint.DefaultedAt | internal/config/blueprint/service/blueprint.go:82-104 | at every depth, a span exists after `prepare` iff it did before; its delay and duration are completed from the defaults and nothing else about it changes |
| ServiceBlueprint.DefaultedIdempotent | internal/config/blueprint/service/blueprint.go:86-87 | defaulting a span twice is defaulting it once |
| ServiceBlueprint.DefaultedSpansIdempotent | internal/config/blueprint/service/blueprint.go:84-94 | the same for a slice of spans, at every depth |
| ServiceBlueprint.CheckSpanDefaulted | internal/config/blueprint/service/blueprint.go:47-60 | the checks on a span give the same answer before and after its defaults are applied |
| ServiceBlueprint.CheckSpansDefaulted | internal/config/blueprint/service/blueprint.go:36-61 | the same for the spans of one service |
| ServiceBlueprint.CheckServicesPrepared | internal/config/blueprint/service/blueprint.go:32-62 | the same for a list of services |
| ServiceBlueprint.ValidationPrepared | internal/config/blueprint/service/blueprint.go:82-104 | `prepare` does not change what validation says |
| ServiceBlueprint.ApplyDefaults | internal/config/blueprint/service/blueprint.go:83-94 | the recursive closure rewrites the slots to exactly the defaulted spans |
| ServiceBlueprint.Blueprint.Prepare | internal/config/blueprint/service/blueprint.go:82-104 | the defaults are unchanged, and the services become exactly the prepared services |
| ServiceBlueprint.ConversionMeaning | internal/config/blueprint/service/blueprint.go:67-79 | converts iff every service converts; the result has twice as many services as the input, the first half zero-valued, the second half the converted services in order; otherwise the first failing service's error |
| ServiceBlueprint.ConvertServices | internal/config/blueprint/service/blueprint.go:69-76 | the appending loop computes exactly that conversion |
| ServiceBlueprint.Blueprint.To | internal/config/blueprint/service/blueprint.go:67-79 | prepares in place, then returns exactly the conversion of the prepared services |
| ServiceBlueprint.Blueprint.Default | internal/config/blueprint/service/blueprint.go:107-115 | no defaults and no services |
| ConfigBlueprint.Validate | internal/config/blueprint/blueprint.go:17-28 | any type other than "service" passes; a "service" blueprint must be present, and its errors are wrapped as "service blueprint validation failed" |
| ConfigBlueprint.ValidateMeaning | internal/config/blueprint/blueprint.go:17-28 | a "service" blueprint validates iff it is present and well formed |
| ConfigBlueprint.To | internal/config/blueprint/blueprint.go:30-39 | an unknown type fails with "unknown blueprint type: <type>"; a nil service blueprint fails; otherwise it delegates to the service blueprint's conversion |
| ConfigBlueprint.Default | internal/config/blueprint/blueprint.go:41-46 | type "service" with a fresh, empty service blueprint |
| ConfigBlueprint.DefaultValidates | internal/config/blueprint/blueprint.go:17-46 | the default blueprint validates whatever the parsers do |
| GlobalConfig.Validate | internal/config/global/global.go:16-21 | passes iff the interval is positive, failing with "global interval must be greater than 0" |
| GlobalConfig.Default | internal/config/global/global.go:8-27 | the default interval is five seconds |
| GlobalConfig.DefaultValidates | internal/config/global/global.go:8-27 | the default global settings validate |
| Config.Validate | internal/config/config.go:19-29 | global settings are checked first; each error is prefixed with its section; passes iff both sections pass |
| Config.GlobalErrorWins | internal/config/config.go:20-22 | a non-positive interval is reported whatever the blueprint holds |
| DomainTask.NewDelay | internal/tracesimulator/model/task/delay_test.go:12-25 | a nil expression is refused (with an assumed message); any other is accepted exactly when the constructor's check passes, and is then wrapped unchanged |
| DomainTask.Resolve | internal/tracesimulator/model/task/delay_test.go:27-72 | an absolute delay resolves to its value whatever the context; a relative one resolves iff the context is a duration, else fails with "invalid context type"; the value is factor times base, truncated toward zero |
| DomainTask.ResolveRelativeBounds | internal/tracesimulator/model/task/delay_test.go:39-49 | a relative delay with a non-negative factor and base resolves to a non-negative value, at most the base when the factor is at most 1 |
| DomainTask.ResolveExamples | internal/tracesimulator/model/task/delay_test.go:27-72 | the test cases: 5s absolute with a nil context, 0.5 of 10s is 5s, and no base or a non-duration base fails |
| DomainTask.KindFromString | internal/tracesimulator/blueprint/service/model/task.go:29 | each of "internal", "client", "server", "producer" and "consumer" maps to its own kind and no other string does; anything else is unspecified |
| DomainTree.TreeNode.AddChild | internal/tracesimulator/blueprint/service/model/task.go:44-46 | the library's check decides; on success the child is appended and the footprint grows by the child's |
| TaskModel.BuildConforms | internal/tracesimulator/blueprint/service/model/task.go:23-77 | a built tree has the task's shape, with each node's definition built from the matching task |
| TaskModel.BuildChildrenConform | internal/tracesimulator/blueprint/service/model/task.go:39-47 | the children are built in declaration order, one per child task |
| TaskModel.ConformsDetached | internal/tracesimulator/blueprint/service/model/task.go:51-77 | below the root every node is non-root, has no parent reference and carries the resource |
| TaskModel.RootTreeShape | internal/tracesimulator/blueprint/service/model/task.go:23-77 | the root is flagged root, keeps its parent reference and carries the resource; every descendant is non-root with no parent reference and the same resource |
| TaskModel.BuildTotal | internal/tracesimulator/blueprint/service/model/task.go:39-47 | when `AddChild` accepts every pair, every task converts |
| TaskModel.BuildChildrenTotal | internal/tracesimulator/blueprint/service/model/task.go:67-75 | the same for a list of child tasks |
| TaskModel.ToRootNodeWithResource | internal/tracesimulator/blueprint/service/model/task.go:23-49 | succeeds iff the tree can be built; the node is valid, freshly allocated, and models exactly that tree; otherwise the first error |
| TaskModel.ToChildNodeWithResource | internal/tracesimulator/blueprint/service/model/task.go:51-77 | the same for a non-root node |
| TaskModel.AddChildren | internal/tracesimulator/blueprint/service/model/task.go:39-47 | converts and adds each child in order; the first error from a child or from `AddChild` aborts |
| SpanEffect.FromEffectSpec | internal/tracesimulator/model/span/effect.go:15-36 | mark-as-failed carries the message; a nil record-event or annotate payload fails with its message; a record-event error is wrapped; an unknown kind names itself |
| SpanEffect.ConfiguredEffectsConvert | internal/tracesimulator/model/span/effect.go:15-36 | effects built from the configuration always carry their payload, so only the record-event conversion can fail |
| SpanEffect.FromTaskAnnotateEffect | internal/tracesimulator/model/span/annotateeffect.go:21-25 | the attributes are carried unchanged |
| SpanEffect.Apply | internal/tracesimulator/model/span/annotateeffect.go:10-18 | the node's map becomes non-nil and equal to the old map with the annotation written over it; never fails |
| SpanEffect.MergedOverwrites | internal/tracesimulator/model/span/annotateeffect.go:14-16 | every annotated key ends with the annotation's value |
| SpanEffect.MergedKeeps | internal/tracesimulator/model/span/annotateeffect.go:14-16 | other keys keep their values; no key is removed and none appears from nowhere |
| SpanEffect.MergedIdempotent | internal/tracesimulator/model/span/annotateeffect.go:10-18 | applying the same annotation twice equals applying it once |
| Wrappers.MapResultsMeaning | internal/config/blueprint/service/service.go:20-26 | the convert-and-append loop succeeds iff every element converts, keeping order and count, and otherwise returns the first error |

## Left out

- receiver.go and factory.go are not part of this model. They hold the ticker goroutine, cancellation, clocks, delivery of traces and logging.
- The random source of a probabilistic condition is left out, because it depends on the clock and a foreign library. Only the threshold is kept.
- `time.ParseDuration`, `strconv.ParseFloat`, the `taskduration` constructors, `task.NewExternalID`, `TreeNode.AddChild` and `span.FromRecordEventEffect` are parameters, not models. Their sources are not part of this model.
- Floating point is modelled as `real`. NaN and infinite values are not represented. So a NaN condition threshold, or a NaN relative factor of a delay or duration, passes Go's `< 0` and `<= 0` checks but is not captured. IEEE rounding in relative resolution is not represented either. Go's truncating float-to-integer conversion is written out in `DomainTask.Scale`.
- Nil and empty slices and maps are identified, except for the attribute map of a span node. `SpanDefinition.To` leaves `children`, `links` and `events` nil when the configuration's are nil; the model gives empty lists.
- The link pointers of a span definition are taken to be non-nil. Go would dereference a nil link.
- `ConfigDelay.WithDefault` and `ConfigDuration.WithDefault` return the default's pointer when the span's is nil. So after `prepare`, spans may share one default value. The model works on values and does not capture that aliasing.
- `task.NewDelay` and `task.NewDuration` are not part of this model. What they check on a non-nil expression is a `Library` field, so the "failed to create" branches of `Delay.To` and `Duration.To` stay modelled. Their nil case cannot arise from the conversion. The nil message of `NewDelay` is assumed: its tests check only that there is an error. `NewDuration` is not modelled beyond its check.
- DomainTask.Resolve: `Delay.Resolve` is not part of this model. It is modelled from delay_test.go:27-72 alone. Its exact error text "invalid context type" is assumed, because the tests check only that the error contains it. The truncation toward zero of a relative value is also assumed.
- `task.FromString` is not part of this model. `DomainTask.KindFromString` assumes that every string other than the five kind names the tests use gives the unspecified kind.
- `DefaultValues.ConditionalEffects` is carried but never read, as in the source.
- internal/config/blueprint/service/span.go and internal/config/blueprint/service/task.go are not part of this model. They are superseded duplicates of the span definition and the task configuration.
- Configuration decoding (`mapstructure` tags) is not modelled.
- `SpanEffect.FromEffectSpec` requires a mark-as-failed specification to carry its message. The source reads that payload without a nil check.
- The mark-as-failed and record-event span effects and their `Apply` are defined in files that are not part of this model. Only what `FromEffectSpec` builds them from is kept.
