# fusen verification

A Dafny 4.11 model of the stateful core of fusen, a Rust RPC framework, with proofs of what its code promises.
`dafny verify dfyconfig.toml` checks the whole project.

What is modelled, component by component:

- **Provider lifecycle** (`LifecycleProtocol`, `LifecycleSafety`, `LifecycleTheorems`, `LifecycleResults`,
  `LifecycleObjects`). Handles, waiters and destructors race over one start lock, a few atomics and three watch cells. The
  protocol is a transition system whose
  steps are single operations on those cells and the worker's work between two await points; the registry's and the
  configuration's versions are one model with a `Protocol` parameter. Objects `Lifecycle` and `ActivationWaiter` carry the
  methods, each proved to be a schedule of the protocol.
- **Schema-driven projection** (`Json`, `Projection`, `ProjectionBounds`, `ProjectionNonInterference`, `JsonPointer`,
  `ProjectionPaths`, `ProjectionContent`, `ProjectionSuccess`, `ProjectorObject`). Shapes are resolved lazily by name, so
  cyclic and infinite schemas are expressible; termination rests on the schema-depth check.
- **Circuit breaker** (`WindowModel`, `RollingWindowObject`, `BreakerModel`, `BreakerTheorems`, `BreakerLedger`,
  `CircuitBreakerObject`, `StoreModel`, `StoreHistory`).
  The window is a circular array of buckets proved equal to a log of timestamped outcomes cut into slices; the breaker is
  an epoch-stamped machine with linear permits; the store is compared with the history of its lookups.
- **Discovery** (`Service`, `Memberships`, `EndpointBreakersObject`, `DirectoryModel`, `DirectoryObject`, `SupervisorModel`,
  `SupervisorObject`, `DiscoveryModel`, `DiscoveryLaws`). A retrying supervisor with one stale deadline drives a published
  directory, a slot state and a reference-counted membership; runs compose any number of supervisors.
- **Hot configuration** (`HotConfigModel`, `HotConfigDocuments`, `HotConfigObject`, `HotConfigLifecycle`). Documents published
  latest-wins and typed last-good views, alone and under the lifecycle that opens and closes them.
- **Contract agreement** (`Splitting`, `Routes`, `RouteValidators`, `Operations`, `OperationValidators`, `ParameterRules`,
  `Interfaces`, `InterfaceRules`). The interface macro's validators against the run-time ones.
- **Nacos codec** (`Capabilities`, `NacosCodec`, `NacosWire`, `NacosProvider`). Metadata encoding and decoding, and the snapshot gate.

Time is a natural number of nanoseconds, read before the lock as in the code, so readings may go backwards; the window
stamps outcomes with the largest reading it has seen. Failure ratios and weights are reals. Classes hold the fields the
code updates in place; each method is proved equal to a function of the old state, and the results over whole runs are
lemmas about those functions. What a main operation answers is stated once more without them: `LifecycleResults` records
what the provider's futures came to and reads the two results off that record, `ProjectionContent` and
`ProjectionSuccess` say what is shown, and when, from the schema and the policy's answers, `BreakerLedger` keeps a ledger
of outcomes, and `DiscoveryLaws`, `HotConfigDocuments`, `ParameterRules`, `InterfaceRules` and `NacosWire` do the same
for theirs.

Two claims one might expect are false of the code, and the project says exactly when they hold:

- `EndpointBreakerStore::retain` does not always act as deleting keys from the lookup history, because a key that was
  displaced earlier does not come back. `StoreHistory.RetainIsNotForgetting` is a run in which it does not,
  `StoreHistory.NextDropForgetsIff` says exactly when one more removal does, and `StoreHistory.StoreIsBetween` what
  holds after any mix of lookups and removals.
- A document published just before the close does not always reach a typed view. `HotConfigModel.CloseCanHideADocument`
  is a concrete case, `HotConfigModel.LastDocumentReadIff` says that the last document is read if and only if the task
  had seen its version when the publisher closed, and `HotConfigModel.ViewAfterClose` what the view holds for good.

## Model

| member | source | states |
|---|---|---|
| `LifecycleSafety.ApplyKeepsInv` | fusen-register/src/lib.rs:330-577 | every single step of every caller, destructor and worker, and every abort, keeps the invariant: lock ownership, worker progress, both results, pending closes and the waiter count |
| `LifecycleSafety.RunKeepsInv` | fusen-config/src/hot.rs:692-895 | the same over whole schedules, for the configuration twin as well as for the registry |
| `LifecycleTheorems.ProviderWorkAtMostOnce` | fusen-register/src/lib.rs:330-557 | over every interleaving the activation future starts at most once, cleanup at most once and only after the activation result is published, and a handle finished unstarted never touched the provider |
| `LifecycleTheorems.EndedWorkerCleanedUp` | fusen-register/src/lib.rs:507-557 | a worker that ends without being aborted has called cleanup exactly once, whether activation succeeded, failed or panicked, and left both results; `LifecycleResults.EndedWorkerTellsOutcomes` says which |
| `LifecycleResults.EndedWorkerTellsOutcomes` | fusen-register/src/lib.rs:507-557 | over every run that ends a worker, the close result is how cleanup ended (its future's own outcome, or a panic), and the activation result is the activation future's own outcome unless a success met a closed publisher or a signalled close |
| `LifecycleResults.LiveWorkerTellsActivation` | fusen-register/src/lib.rs:509-532 | the activation result is that already while the worker still runs: it does not wait for the close |
| `LifecycleResults.AbortedWorkerTellsAborts` | fusen-register/src/lib.rs:559-577 | an aborted worker reports the aborted cleanup, and the aborted activation unless its own outcome was out already |
| `LifecycleResults.UnstartedHandleTellsReason` | fusen-register/src/lib.rs:384-418 | a handle finished without a worker reports a clean close and why it never started: no runtime, or a close that came first |
| `LifecycleResults.CallsReturnWithResults` | fusen-register/src/lib.rs:580-602 | a call leaves off waiting by its own step only when the result it came for is published |
| `LifecycleResults.WaitersSeeResults` | fusen-register/src/lib.rs:580-602 | a waiting call goes on exactly when its result is there |
| `LifecycleResults.CloseHasReason` | fusen-register/src/lib.rs:384-396 | over every run a close is requested only because of a close call, the end of the last handle, or an activation given up before anyone observed a result |
| `LifecycleResults.DecidingHasReason` | fusen-register/src/lib.rs:463-480 | an activation is given up only by the last live waiter, and only when it left without a result |
| `LifecycleTheorems.AbortedWorkerPublishes` | fusen-register/src/lib.rs:559-577 | an aborted worker still leaves both results, and closes the publisher of a configuration |
| `LifecycleTheorems.ResultsFollowStart` | fusen-register/src/lib.rs:330-418 | Prepared means no result, Finished both, Started both exactly when the worker is gone |
| `LifecycleTheorems.SuccessWasOpenAtTheCheck` | fusen-register/src/lib.rs:520-529 | a published success implies that the worker's check saw no close request; a request landing after the check is not excluded |
| `LifecycleTheorems.DecisionsAreFinal` | fusen-register/src/lib.rs:330-577 | results, the close request and the start decision never change once made, over any further schedule |
| `LifecycleTheorems.NoCloseIsLost` | fusen-register/src/lib.rs:384-396 | when no requester is in flight, a requested close has finished the handle unstarted or signalled the worker |
| `LifecycleTheorems.AbandonedActivationCloses` | fusen-register/src/lib.rs:439-486 | the counter equals the live waiters; when waiters were created, none is left, none is releasing and none saw a result, a close has been requested |
| `LifecycleTheorems.CancellingOneOfSeveralIsQuiet` | fusen-register/src/lib.rs:463-480 | cancelling one of several waiters changes nothing but the count |
| `LifecycleTheorems.ProtocolStepsDescend` | fusen-register/src/lib.rs:330-577 | every step the protocol takes on its own lowers a measure |
| `LifecycleTheorems.ProtocolRunsAreBounded` | fusen-register/src/lib.rs:330-577 | so runs without new calls are bounded by it |
| `LifecycleTheorems.UnsettledCanStep` | fusen-register/src/lib.rs:420-437 | in every unsettled state some protocol step is enabled: no deadlock, no lost wake-up |
| `LifecycleTheorems.ProtocolSettles` | fusen-register/src/lib.rs:580-602 | from every reachable state the protocol can settle within its measure: all calls returned, and both results there if a close was requested |
| `LifecycleObjects.RunAloneIsASchedule` | fusen-register/src/lib.rs:330-418 | what a method does without interference is a schedule of the protocol in which only that caller moves |
| `LifecycleObjects.Lifecycle.constructor` | fusen-register/src/lib.rs:305-328 | a new lifecycle is the protocol's initial state |
| `LifecycleObjects.Lifecycle.RequestClose` | fusen-register/src/lib.rs:384-396 | in place, exactly the protocol's close call run alone |
| `LifecycleObjects.Lifecycle.PublishPreActivationClose` | fusen-register/src/lib.rs:410-418 | publishes a failed activation and a clean close, and changes nothing else |
| `LifecycleObjects.Lifecycle.FinishBeforeStart` | fusen-register/src/lib.rs:398-408 | finishes a prepared handle with the missing runtime's error and leaves any other alone |
| `LifecycleObjects.Lifecycle.EnsureStarted` | fusen-register/src/lib.rs:330-382 | in place, the protocol's activation call up to its wait: a worker is spawned only from Prepared without a close request |
| `LifecycleObjects.ActivationWaiter.constructor` | fusen-register/src/lib.rs:446-453 | registering counts one waiter |
| `LifecycleObjects.ActivationWaiter.Complete` | fusen-register/src/lib.rs:455-461 | observing a result disarms the release |
| `LifecycleObjects.ActivationWaiter.Release` | fusen-register/src/lib.rs:463-480 | the last unobserved release requests a close; a second release does nothing |
| `Projection.DelegationDescends` | fusen/src/projection.rs:290-310 | following one Optional or Sequence of a shape whose classification was found lowers the rank, which is what makes projection terminate on cyclic schemas |
| `Projection.InheritedEndsChain` | fusen/src/projection.rs:290-310 | the schema-depth check bounds the delegation chain |
| `ProjectionBounds.ValidateValueExact` | fusen/src/projection.rs:407-455 | the budgeted walk accepts exactly the values that keep depth, array and string limits and whose nodes fit the budget, and charges exactly their node count |
| `ProjectionBounds.InheritedKindCharges` | fusen/src/projection.rs:345-405 | validating against a schema with an inherited kind charges exactly the value's nodes |
| `ProjectionBounds.ProjectKeepsBudget` | fusen/src/projection.rs:142-288 | every successful projection stays within the node budget, is paid for node by node and is bounded in depth and size; every projection, also one that fails later, shows the sanitizer only values already validated within limits |
| `ProjectionBounds.ArgumentsAreValidatedFirst` | fusen/src/projection.rs:36-70 | everything the sanitizer is shown of the arguments was validated first, whether they are shown in the end or not |
| `ProjectionBounds.ResponseIsValidatedFirst` | fusen/src/projection.rs:72-97 | the same for a response body |
| `ProjectionBounds.ShownArgumentsKeepLimits` | fusen/src/projection.rs:36-70 | shown arguments have at most `max_nodes` nodes plus the root and keep every limit |
| `ProjectionBounds.ShownResponseKeepsLimits` | fusen/src/projection.rs:72-97 | shown responses have at most `max_nodes` nodes and keep every limit |
| `ProjectionNonInterference.ProjectAlike` | fusen/src/projection.rs:131-310 | non-interference: under a kind-based policy, values that agree where they are revealed and in structure, and differ arbitrarily where redacted, omitted, opaque or undeclared, project equally whenever both succeed |
| `ProjectionNonInterference.ArgumentsAlike` | fusen/src/projection.rs:36-70 | the same for whole argument lists, undeclared arguments being free |
| `ProjectionNonInterference.ShownArgumentsAlike` | fusen/src/projection.rs:36-70 | and for what is finally shown of them |
| `ProjectionNonInterference.ShownResponsesAlike` | fusen/src/projection.rs:72-97 | and for what is finally shown of a response body |
| `ProjectionNonInterference.PolicyEnv` | fusen/src/sensitive.rs:260-267 | the shipped policy decides by kind alone and reveals exactly the kinds with a reveal rule |
| `JsonPointer.UnescapeEscape` | fusen/src/projection.rs:472-481 | escaping a path segment is reversible |
| `JsonPointer.EscapesAreStandard` | fusen/src/projection.rs:472-481 | a tilde is written ~0, a slash ~1, and any other character as itself (section 3 of RFC 6901) |
| `JsonPointer.PointerRoundTrip` | fusen/src/projection.rs:472-481 | a path built by pushing segments parses back into those segments |
| `JsonPointer.PathOfPush` | fusen/src/projection.rs:472-481 | pushing a segment extends the path by that segment |
| `ProjectionPaths.ProjectExplained` | fusen/src/projection.rs:142-288 | every consultation, failed projections included, has the path of declared field names that lead through the schema to its kind |
| `ProjectionPaths.ResponsePathsNameFields` | fusen/src/projection.rs:72-97 | the path of a response consultation parses back into exactly those names |
| `ProjectionPaths.ArgumentPathsNameFields` | fusen/src/projection.rs:36-70 | the same for arguments, whose names come first |
| `ProjectionContent.ProjectShows` | fusen/src/projection.rs:142-288 | every finished projection shows what the schema and the policy's answers alone say: a revealed value itself, a redacted one the marker, a replaced one the replacement; omitted, opaque and undeclared parts nothing; fields and elements in order under their names; an empty array exactly for classified elements |
| `ProjectionContent.ShowsOneThing` | fusen/src/projection.rs:142-288 | and that leaves no choice: no two different values can be shown |
| `ProjectionContent.ClassifiedIffLeads` | fusen/src/projection.rs:312-343 | the search for a classified value finds one exactly when declared fields and layers lead to a kind |
| `ProjectionSuccess.ShapeExact` | fusen/src/projection.rs:345-405 | validation against a schema with an inherited kind succeeds exactly on values with the schema's arrays and nulls that keep the limits and fit the budget |
| `ProjectionSuccess.ProjectExact` | fusen/src/projection.rs:142-455 | a projection finishes if and only if the value has the schema's form within every limit, the sanitizer answers, replacements fit, and the nodes to charge fit the budget; it then charges exactly those |
| `ProjectionSuccess.ShownArguments` | fusen/src/projection.rs:36-70 | arguments are finally shown as x if and only if they are admitted, within the node budget and encodable, and x holds exactly the declared fields that show something |
| `ProjectionSuccess.ShownResponse` | fusen/src/projection.rs:72-97 | the same for a response body, which must also be classified, within the input limit and parse |
| `ProjectorObject.Projector.Visit` | fusen/src/projection.rs:446-455 | charges one node in place, or fails beyond the depth or node limit |
| `ProjectorObject.Projector.ValidateDescendants` | fusen/src/projection.rs:412-444 | the loops over arrays and objects equal the budgeted walk |
| `ProjectorObject.Projector.ValidateShape` | fusen/src/projection.rs:345-353 | charges the node and walks the value along the schema in place, with the node count of the functional walk |
| `ProjectorObject.Projector.ValidateSequence` | fusen/src/projection.rs:385-405 | refuses anything but an array within the limit and of the required length, and charges its elements |
| `ProjectorObject.Projector.SanitizeClassified` | fusen/src/projection.rs:271-288 | one logged consultation; a replacement is charged and validated like input before it is shown; `ProjectionContent.ProjectShows` says what each answer shows |
| `ProjectorObject.Projector.Project` | fusen/src/projection.rs:142-151 | the mutable projector computes the functional projection, node count and consultation log included |
| `ProjectorObject.Projector.ProjectVisited` | fusen/src/projection.rs:153-224 | in place, equal to the functional projection, with the path buffer restored |
| `ProjectorObject.Projector.ProjectFields` | fusen/src/projection.rs:174-200 | the loop over declared fields, pushing and truncating the path |
| `ProjectorObject.Projector.ProjectSequence` | fusen/src/projection.rs:226-269 | in place, equal to the functional projection of a sequence |
| `ProjectorObject.SanitizeArguments` | fusen/src/projection.rs:36-70 | the argument loop equals the functional result, failing closed |
| `ProjectorObject.SanitizeResponse` | fusen/src/projection.rs:72-97 | the response path equals the functional result, failing closed |
| `WindowModel.CountsRetained` | fusen/src/resilience/breaker.rs:574-583 | the counts never exceed the retained log entries, and equal them if and only if no slice exceeds the u32 range |
| `WindowModel.CountIsCardinality` | fusen/src/resilience/breaker.rs:574-583 | a count is the number of logged outcomes of its kind in the interval |
| `WindowModel.CoverageByAge` | fusen/src/resilience/breaker.rs:545-563 | a retained outcome is younger than `buckets * width`, and every outcome of age at most `(buckets - 1) * width` is retained |
| `WindowModel.AdvanceValid` | fusen/src/resilience/breaker.rs:545-563 | advancing keeps the grid aligned with the clock, by whole slices or by a full reset |
| `WindowModel.AdvanceMovesGrid` | fusen/src/resilience/breaker.rs:545-563 | slices move by whole widths while any is still covered, and start over at the reading once all have expired |
| `RollingWindowObject.RollingWindow.constructor` | fusen/src/resilience/breaker.rs:534-543 | an empty circular buffer is the empty log; slices are at least one nanosecond wide |
| `RollingWindowObject.RollingWindow.Advance` | fusen/src/resilience/breaker.rs:545-563 | rotating or resetting the circular buffer is advancing the log's window |
| `RollingWindowObject.RollingWindow.RecordSuccess` | fusen/src/resilience/breaker.rs:565-568 | appends a success to the log |
| `RollingWindowObject.RollingWindow.RecordFailure` | fusen/src/resilience/breaker.rs:570-573 | appends a failure to the log |
| `RollingWindowObject.RollingWindow.Counts` | fusen/src/resilience/breaker.rs:574-583 | summing the buffer in index order gives the window's counts, whatever the rotation |
| `BreakerTheorems.ApplyKeepsInv` | fusen/src/resilience/breaker.rs:243-442 | every acquisition and completion keeps permits, phases, counters and open durations consistent |
| `BreakerTheorems.PermitsAreConserved` | fusen/src/resilience/breaker.rs:243-442 | a permit of the current epoch has the machine's phase; half-open permits in flight are exactly those out and within the limit; counted successes are those of this period |
| `BreakerTheorems.InFlightNeverSaturates` | fusen/src/resilience/breaker.rs:387-442 | the saturating subtraction never saturates |
| `BreakerTheorems.StalePermitIsInert` | fusen/src/resilience/breaker.rs:336-354 | completing a permit of an earlier epoch changes nothing, however long the run in between |
| `BreakerTheorems.OpenDurationLaw` | fusen/src/resilience/breaker.rs:101-141 | whatever maximum is requested, after k failed half-open periods the open duration is min(open * 2^k, min(requested maximum, 120 s)) |
| `BreakerTheorems.EveryRequestIsValid` | fusen/src/resilience/breaker.rs:101-130 | every request the constructor accepts leads to a configuration the other results apply to |
| `BreakerTheorems.OpeningSetsDeadline` | fusen/src/resilience/breaker.rs:356-442 | only a completing failure opens the breaker, for its duration from that clock reading |
| `BreakerTheorems.PermitIssuedIff` | fusen/src/resilience/breaker.rs:243-304 | a permit is issued if and only if the deadline is reached and the probe limit has room; before the deadline nothing changes and the remaining time is reported |
| `BreakerTheorems.Recovers` | fusen/src/resilience/breaker.rs:243-442 | the successes still needed, in rounds that acquire at one clock reading and succeed at another, close the breaker with a window that is empty from the last success on |
| `BreakerTheorems.OpenBreakerRecovers` | fusen/src/resilience/breaker.rs:243-442 | from every reachable open state, `close_successes` rounds begun past the deadline do so |
| `BreakerLedger.OutcomesCount` | fusen/src/resilience/breaker.rs:63-77 | which outcomes count: seven failure classes against the endpoint, an answer or an application error for it, abandoned and released permits and the caller's own failures neither way |
| `BreakerLedger.WindowIsLedger` | fusen/src/resilience/breaker.rs:356-385 | over every run a closed breaker's window is the ledger of the outcomes that counted since it was last closed, stamped with the latest clock reading, in the configured slices |
| `BreakerLedger.SlicesFillWindow` | fusen/src/resilience/breaker.rs:534-543 | the slices together are the configured window, rounded down by less than one nanosecond each |
| `BreakerLedger.OpensOnRetainedFailures` | fusen/src/resilience/breaker.rs:356-385 | as long as no slice exceeds the u32 range, a closed breaker opens if and only if the outcome is held against the endpoint, at least the minimum of samples is retained, and the retained failures are at least the failure ratio times the samples |
| `BreakerLedger.ClosedCompletions` | fusen/src/resilience/breaker.rs:356-385 | nothing else moves a closed breaker, and an outcome that does not count is not recorded |
| `BreakerLedger.HalfOpenCompletions` | fusen/src/resilience/breaker.rs:387-442 | a half-open breaker opens exactly on an outcome held against the endpoint, closes with an empty window exactly on the last required success, and otherwise gives the one probe back |
| `BreakerLedger.TransitionsAreReported` | fusen/src/resilience/breaker.rs:243-442 | the observer is told of a phase exactly when the breaker enters another one, and each is one new epoch |
| `CircuitBreakerObject.CircuitBreaker.constructor` | fusen/src/resilience/breaker.rs:232-241 | a new breaker is closed with an empty window |
| `CircuitBreakerObject.CircuitBreaker.TryAcquire` | fusen/src/resilience/breaker.rs:243-304 | in place, equal to the machine's acquisition; the loop turns at most twice |
| `CircuitBreakerObject.CircuitBreaker.Complete` | fusen/src/resilience/breaker.rs:336-354 | in place, equal to the machine's completion: a permit of another epoch changes nothing and is reported to nobody |
| `CircuitBreakerObject.CircuitBreaker.CompleteClosed` | fusen/src/resilience/breaker.rs:356-385 | records over the circular window what the machine records in its log, and opens when the machine does, which `BreakerLedger.OpensOnRetainedFailures` characterises |
| `CircuitBreakerObject.CircuitBreaker.CompleteHalfOpen` | fusen/src/resilience/breaker.rs:387-442 | closes with an empty window, reopens for the next duration, or only gives the probe back, exactly as the machine does |
| `CircuitBreakerObject.BreakerPermit.Finish` | fusen/src/resilience/breaker.rs:506-518 | a permit completes once; dropping it afterwards does nothing |
| `StoreModel.LookupRefines` | fusen/src/resilience/breaker.rs:660-694 | one lookup takes the most recently used keys of a history to those of the longer history |
| `StoreHistory.StoreIsBetween` | fusen/src/resilience/breaker.rs:652-726 | after any mix of lookups and removals the store holds every most recent key of all lookups that was not dropped since its last one, and only most recent keys of the history without dropped keys |
| `StoreHistory.StoreIsMostRecent` | fusen/src/resilience/breaker.rs:652-726 | with increasing times, and as long as every removal forgets, the store holds exactly the `max_entries` most recently used distinct keys younger than the idle limit, dropped keys deleted |
| `StoreHistory.RetainIsNotForgetting` | fusen/src/resilience/breaker.rs:652-658 | a run of three lookups and one removal, with the stores it goes through, after which the store misses a most recent key of what remains |
| `StoreHistory.NextDropForgetsIff` | fusen/src/resilience/breaker.rs:652-658 | after removals that forgot, the store stays exact under one more removal if and only if no dropped key was cached or every other young key is cached already |
| `StoreModel.RetainForgetsIff` | fusen/src/resilience/breaker.rs:652-658 | the condition on the keys alone: dropping from the most recent keys equals dropping from all uses if and only if nothing cached is dropped or no other young key was left out |
| `EndpointBreakersObject.EndpointBreakerStore.GetOrInsert` | fusen/src/resilience/breaker.rs:660-694 | a young key keeps its breaker, a missing or idle one gets a fresh closed one, no other entry changes, and the map of last uses follows a lookup |
| `EndpointBreakersObject.EndpointBreakerStore.EvictIdle` | fusen/src/resilience/breaker.rs:717-726 | leaves exactly the young entries |
| `EndpointBreakersObject.EndpointBreakerStore.LeastRecentlyUsed` | fusen/src/resilience/breaker.rs:675-681 | finds an entry with the smallest last use |
| `EndpointBreakersObject.EndpointBreakerStore.Retain` | fusen/src/resilience/breaker.rs:652-658 | keeps exactly the selected entries |
| `Service.IdentityRoundTrip` | fusen-contract/src/service.rs:741-752 | an identity parses back into the service, group and version of any valid selector |
| `Service.SameIdentityIff` | fusen-contract/src/service.rs:741-752 | two valid selectors share an identity exactly when they differ at most in metadata |
| `Service.IdentityIsWritten` | fusen-contract/src/service.rs:741-752 | the written form: service/group@version, without the parts that are absent |
| `Memberships.ReplaceKeepsCoherent` | fusen/src/client/endpoint_breakers.rs:116-142 | replacing one owner's members keeps every reference count equal to the number of owners holding the member, absent iff zero |
| `Memberships.RemoveKeepsCoherent` | fusen/src/client/endpoint_breakers.rs:144-156 | removing an owner does too |
| `Memberships.EvictedIff` | fusen/src/client/endpoint_breakers.rs:180-200 | a member is evicted if and only if it was given up by its only owner |
| `Memberships.OthersStayReferenced` | fusen/src/client/endpoint_breakers.rs:116-156 | another owner's member is neither evicted nor unreferenced |
| `Memberships.ReferencedAfter` | fusen/src/client/endpoint_breakers.rs:116-156 | exactly the evicted members become unreferenced |
| `Memberships.ReferencedIffHeld` | fusen/src/client/endpoint_breakers.rs:116-156 | a member is referenced exactly when some owner holds it |
| `EndpointBreakersObject.EndpointBreakers.constructor` | fusen/src/client/endpoint_breakers.rs:77-85 | starts empty and coherent |
| `EndpointBreakersObject.EndpointBreakers.GetDirect` | fusen/src/client/endpoint_breakers.rs:95-98 | a direct lookup needs no membership: it finds its breaker again while cached and not idle, caches a fresh one otherwise, and leaves other entries alone or displaces them |
| `EndpointBreakersObject.EndpointBreakers.GetDiscovered` | fusen/src/client/endpoint_breakers.rs:100-114 | a discovery lookup of a referenced member finds its breaker again while cached and not idle and caches a fresh one otherwise; any other gets an untracked fresh one |
| `EndpointBreakersObject.EndpointBreakers.IncrementReferences` | fusen/src/client/endpoint_breakers.rs:170-178 | the loop adds one reference to each member |
| `EndpointBreakersObject.EndpointBreakers.DecrementReferences` | fusen/src/client/endpoint_breakers.rs:180-200 | the loop takes one reference from each member and returns exactly those that lost their last |
| `EndpointBreakersObject.EndpointBreakers.RemoveCached` | fusen/src/client/endpoint_breakers.rs:158-167 | drops exactly the discovery entries of evicted members, never a direct one |
| `EndpointBreakersObject.EndpointBreakers.ReplaceDiscovery` | fusen/src/client/endpoint_breakers.rs:116-142 | the owner then holds exactly the endpoints under its identity, each of them referenced, and other owners what they held; every cached discovery breaker belongs to a referenced member, whatever direct lookups come between the two locks, and without any exactly the unreferenced ones are gone |
| `EndpointBreakersObject.EndpointBreakers.RemoveDiscovery` | fusen/src/client/endpoint_breakers.rs:144-156 | the same for removing an owner |
| `EndpointBreakersObject.EndpointBreakers.LookUpDiscovered` | fusen/src/client/endpoint_breakers.rs:87-142 | two lookups of a discovered endpoint by its selector's identity, within the idle limit and unless displaced in between, return the same breaker |
| `DirectoryModel.RevisionIdentifiesSnapshot` | fusen-register/src/directory.rs:171-207 | revisions never decrease, and equal revisions mean the same snapshot |
| `DirectoryModel.RunShape` | fusen-register/src/directory.rs:171-226 | closed exactly when the last publisher is gone, initializing exactly before the first publication |
| `DirectoryModel.StateChangesRetainInstances` | fusen-register/src/directory.rs:196-205 | state-only, refused and closing publications keep the instances last published |
| `DirectoryModel.CellShowsLastAccepted` | fusen-register/src/directory.rs:171-226 | a reader sees the last accepted state as of its publication, under the number of publications so far, and after the last handle is gone the closing of that, one revision later |
| `DirectoryObject.DirectoryPublisher.Publish` | fusen-register/src/directory.rs:171-207 | lifecycle-managed states and a revision overflow are refused without change; otherwise state and instances are replaced together under the next revision |
| `DirectoryObject.DirectoryPublisher.Drop` | fusen-register/src/directory.rs:209-226 | only the last handle publishes the closing snapshot |
| `SupervisorModel.NextKeepsInv` | fusen/src/client/subscription.rs:276-476 | every step of the task keeps: deadline iff stale, slot agrees with directory, the directory states each await point can see, generations exclusive |
| `SupervisorModel.ExpiryIsAlwaysOffered` | fusen/src/client/subscription.rs:648-670 | at every await a reached deadline can fire, and firing withdraws the stale snapshot from routing |
| `SupervisorModel.DeadlineAppearsAtLoss` | fusen/src/client/subscription.rs:479-582 | a deadline appears only when a ready directory is lost and is never moved |
| `DiscoveryModel.StepKeepsIndex` | fusen/src/client/subscription.rs:479-602 | each step of any supervisor keeps the index in agreement with the published directories |
| `DiscoveryModel.ReferencedIffRetained` | fusen/src/client/endpoint_breakers.rs:116-156 | before shutdown a member is referenced if and only if some live directory of its identity retains an instance at its endpoint, and each owner holds exactly the members of its own directory |
| `DiscoveryModel.DeadlineCountsFromFirstLoss` | fusen/src/client/subscription.rs:479-602 | whenever a directory is stale, its deadline is the first loss since it was ready plus the staleness bound, through all stale updates, disconnects and retries since |
| `DiscoveryModel.OnlyReadyRestoresRouting` | fusen/src/client/subscription.rs:479-602 | an unroutable directory that is routable later was handed a fresh ready snapshot in between |
| `DiscoveryModel.GenerationsNeverOverlap` | fusen/src/client/subscription.rs:276-476 | each prepared handle is closed for good before the next is prepared and before completion |
| `DiscoveryModel.SlotsAndRetries` | fusen/src/client/subscription.rs:622-646 | a ready or stale slot matches its directory in every reachable state, and a restored retry state is never ready or initializing |
| `DiscoveryLaws.EveryEventIsForwarded` | fusen/src/client/subscription.rs:276-620 | over every run, what each event does to the directory, slot and deadline: a ready or unavailable snapshot is published as handed, a stale one as stale if and only if the directory was routable and else as unavailable, a lost ready directory turns stale with a deadline, a failure is reported unless a stale directory is still served, and nothing else publishes until the end |
| `DiscoveryLaws.OnlyTheseEndRouting` | fusen/src/client/subscription.rs:479-602 | a routable directory becomes unroutable in a step only by a handed unavailable snapshot, a reached deadline, or the end of the task |
| `DiscoveryLaws.ReadyServesUntilEnded` | fusen/src/client/subscription.rs:479-602 | from a ready snapshot on the directory is routable, through losses, failures and retries, until one of those |
| `DiscoveryLaws.IndexFollowsEvents` | fusen/src/client/subscription.rs:479-542 | what a task holds in the index is the endpoints it was handed last, under its identity, until the end of its loop |
| `DiscoveryLaws.ShutdownClosesDirectories` | fusen/src/client/subscription.rs:163-182 | the shutdown closes the directory of an ended task with its instances kept and empties its share of the index, nobody else's |
| `DiscoveryLaws.FinishingHasReason` | fusen/src/client/subscription.rs:276-476 | a task ends only after a failed close, a panicking provider, or a shutdown it saw or closed under |
| `DiscoveryLaws.EndedSlotSaysWhy` | fusen/src/client/subscription.rs:276-476 | and its slot then says which: failed with that error, quarantined, or closed |
| `SupervisorObject.Supervisor.UpdateSnapshot` | fusen/src/client/subscription.rs:479-542 | over the shared publisher and index: what a snapshot publishes and what the index holds change together, as the transition system does; `DiscoveryLaws.EveryEventIsForwarded` says which state that is |
| `SupervisorObject.Supervisor.MarkDisconnected` | fusen/src/client/subscription.rs:544-582 | a lost ready directory turns stale with a deadline, a stale one keeps its deadline, an initializing one becomes unavailable, and the instances stay |
| `SupervisorObject.Supervisor.ExpireStale` | fusen/src/client/subscription.rs:584-602 | a stale directory becomes unavailable with its instances kept, the deadline ends, and a slot that was not routable keeps its state |
| `SupervisorObject.Supervisor.SetProviderFailure` | fusen/src/client/subscription.rs:604-620 | a provider failure never takes a stale directory out of routing, and ends initialization otherwise |
| `SupervisorObject.Supervisor.SetRetryingState` | fusen/src/client/subscription.rs:622-646 | the slot takes up the directory's own state again |
| `SupervisorObject.Supervisor.AwaitWithStaleDeadline` | fusen/src/client/subscription.rs:648-670 | a deadline reached before the future completes expires the directory once; a future ready together with it wins |
| `SupervisorObject.Supervisor.Finish` | fusen/src/client/subscription.rs:466-476 | the end of the loop: terminal slot, membership removed and both handles dropped unless a shutdown will do it |
| `SupervisorObject.Supervisor.Handle` | fusen/src/client/subscription.rs:276-476 | every step of the task on the real objects is a step of the transition system, with the index replaced exactly by the announced instances |
| `HotConfigModel.LastGoodView` | fusen-config/src/hot.rs:246-367 | over every schedule the value is the parse of the last document read that parsed, the revision one plus the later successes, and the error set exactly when the last document read failed |
| `HotConfigModel.LatestDocumentWins` | fusen-config/src/hot.rs:314-360 | a view that has consumed the latest unclosed snapshot shows it, or reports its error |
| `HotConfigModel.NothingHiddenByClose` | fusen-config/src/hot.rs:318-326 | a view that was up to date when the publisher closed has missed nothing |
| `HotConfigModel.ClosedViewIsFrozen` | fusen-config/src/hot.rs:318-326 | from the close on no view reads or shows anything new, and none is opened |
| `HotConfigModel.LastDocumentReadIff` | fusen-config/src/hot.rs:314-360 | at any time after the close, a view's task has read the last document's version if and only if it had seen it when the publisher closed |
| `HotConfigModel.ViewAfterClose` | fusen-config/src/hot.rs:314-360 | what a view holds for good: the last document's value or error if it had seen that version, else the last good value it held |
| `HotConfigModel.CloseCanHideADocument` | fusen-config/src/hot.rs:318-326 | a case where the closing snapshot hides the last document |
| `HotConfigModel.ListenerDocumentStays` | fusen-config/src/hot.rs:540-590 | an accepted listener document stays current until the next one: no initial fetch overwrites it |
| `HotConfigModel.CloseIsFinal` | fusen-config/src/hot.rs:540-648 | after the close every publication is refused and the cell never changes |
| `HotConfigDocuments.DocumentsFollowActions` | fusen-config/src/hot.rs:543-590 | over every run the baseline is the document fetched last, and the current document the listener's last one or, before any, the one fetched first |
| `HotConfigDocuments.OpensOnBestDocument` | fusen-config/src/hot.rs:250-303 | a view opens on the current document when it parses, else on the baseline with the current one's error reported, else not at all, for that error |
| `HotConfigDocuments.RefusedAfterCloseOnly` | fusen-config/src/hot.rs:543-590 | documents are refused exactly once the publisher has been finished |
| `HotConfigDocuments.ExhaustedCountersStop` | fusen-config/src/hot.rs:543-590 | at the last revision a publisher refuses what needs another one, and a view stops with the value it has |
| `HotConfigLifecycle.PublisherFollowsLifecycle` | fusen-config/src/hot.rs:692-895 | over every schedule of the handle the publisher is closed exactly when the lifecycle has ended it |
| `HotConfigLifecycle.ActivatedHandlesHaveADocument` | fusen-config/src/hot.rs:250-303 | a successful activation has published a document, so a typed view of an open handle fails only when neither the fetched nor the current document parses |
| `HotConfigObject.ConfigPublisher.Publish` | fusen-config/src/hot.rs:543-564 | refused without change once closed or at the last revision, else the document becomes current and one more version is sent |
| `HotConfigObject.ConfigPublisher.PublishInitial` | fusen-config/src/hot.rs:566-590 | the fetched document becomes the baseline, and current only when there is none yet |
| `HotConfigObject.ConfigPublisher.Finish` | fusen-config/src/hot.rs:629-640 | sends one closing snapshot that keeps the document; a second call changes nothing |
| `HotConfigObject.TypedView.Update` | fusen-config/src/hot.rs:314-360 | one turn of the view's loop: a document that fails to parse never replaces the value, and a closed snapshot only ends the task |
| `HotConfigObject.OpenTyped` | fusen-config/src/hot.rs:250-367 | a new view or the error that explains why there is none |
| `Routes.EncodeDecode` | fusen-contract/src/service.rs:921-963 | an accepted literal is the one encoding of its text |
| `Routes.DecodeEncode` | fusen-contract/src/service.rs:921-963 | every text whose ASCII characters are path characters (RFC 3986 section 3.3) has an accepted encoding |
| `Routes.LiteralsAreCanonical` | fusen-contract/src/service.rs:921-963 | two accepted literals for the same text are equal |
| `Routes.SegmentsAreParts` | fusen-contract/src/service.rs:879-919 | trimming and filtering drop nothing from an accepted route |
| `Routes.SameShapeIff` | fusen-contract/src/service.rs:1031-1043 | two paths share a shape exactly when they agree segment by segment up to placeholder names |
| `RouteValidators.ValidateRouteLiteral` | fusen-macro/procedural-macro/src/validate.rs:928-990 | the macro's scan accepts exactly the literals that decode to acceptable text |
| `RouteValidators.ValidateRoute` | fusen-macro/procedural-macro/src/validate.rs:883-926 | the macro accepts exactly the routes of the specification and returns their placeholders |
| `RouteValidators.DecodeRouteLiteral` | fusen-contract/src/service.rs:921-963 | the contract's scan accepts the same literals and returns their text |
| `RouteValidators.ValidateHttpRoute` | fusen-contract/src/service.rs:879-919 | the contract accepts exactly the same routes with the same placeholders |
| `RouteValidators.HttpRouteShape` | fusen-macro/procedural-macro/src/validate.rs:1088-1099 | the contract's loop builds the macro's shape, for every path |
| `RouteValidators.RouteValidatorsAgree` | fusen-macro/procedural-macro/src/validate.rs:883-990 | the two validators give the same answer on every path |
| `Operations.AcceptedInputsAreAcceptedParameters` | fusen-macro/procedural-macro/src/validate.rs:312-689 | parameters the macro accepts are parameters the contract accepts: distinct, single bodies and maps, no body on GET, HEAD or OPTIONS, path names equal to the placeholders |
| `OperationValidators.CheckInput` | fusen-macro/procedural-macro/src/validate.rs:455-655 | the checks of one parameter, exactly |
| `OperationValidators.ResolveParameters` | fusen-macro/procedural-macro/src/validate.rs:312-689 | the macro's pass accepts exactly the specified inputs and resolves each source |
| `OperationValidators.ScanParameters` | fusen-contract/src/service.rs:805-842 | the contract's loop refuses duplicates and misplaced repetition and counts the rest |
| `OperationValidators.ValidateHttpOperation` | fusen-contract/src/service.rs:782-877 | the contract accepts exactly the specified operations |
| `ParameterRules.SourceOfParameter` | fusen-macro/procedural-macro/src/validate.rs:532-540 | where a parameter's value comes from: the declared source; else the path for a placeholder's name; else a body field under POST, PUT and PATCH and the query under any other verb |
| `ParameterRules.AcceptedTypes` | fusen-macro/procedural-macro/src/validate.rs:455-655 | what an accepted parameter may be: single values in a path, flat lists marked as repeated in a query, nothing in a body under GET, HEAD or OPTIONS |
| `ParameterRules.OrdinaryInputsAreAccepted` | fusen-macro/procedural-macro/src/validate.rs:455-655 | an identifier with a plain type is accepted from each of the five value sources where that source is possible |
| `ParameterRules.MacroAcceptsIff` | fusen-macro/procedural-macro/src/validate.rs:312-689 | the macro accepts a parameter list if and only if each is acceptable, wire names are distinct, context, body and maps are single, every placeholder has its parameter, and body and body fields are not mixed |
| `ParameterRules.ContractAcceptsIff` | fusen-contract/src/service.rs:782-877 | the contract's rules in the same terms, in both directions |
| `Interfaces.TranslateMethods` | fusen-macro/procedural-macro/src/validate.rs:94-147 | the macro's loop accepts exactly well-formed methods with distinct routes |
| `Interfaces.Validate` | fusen-macro/procedural-macro/src/validate.rs:61-155 | the macro accepts exactly the specified interfaces, at most 65536 methods |
| `Interfaces.DescribeMethod` | fusen-macro/procedural-macro/src/service_macro.rs:235-303 | the generated code for one method succeeds exactly on describable methods |
| `Interfaces.ValidateMethods` | fusen-contract/src/service.rs:996-1029 | accepts exactly contiguous ids with distinct names and routes |
| `Interfaces.BuildDescriptor` | fusen-macro/procedural-macro/src/service_macro.rs:217-311 | the generated descriptor code succeeds exactly on acceptable services |
| `Interfaces.AcceptedMethodIsDescribable` | fusen-contract/src/service.rs:372-392 | a method the macro accepts builds an operation that keeps its media types |
| `Interfaces.AcceptedInterfaceIsDescribable` | fusen-contract/src/service.rs:517-523 | an interface the macro accepts, with distinct method names, always builds its descriptor |
| `Interfaces.Generate` | fusen-macro/procedural-macro/src/service_macro.rs:217-311 | the macro followed by its generated code never fails, and the descriptor declares exactly what was accepted |
| `InterfaceRules.VerbIsSpelled` | fusen-macro/procedural-macro/src/validate.rs:846-855 | a verb is read from the seven names in any mixture of cases, and from nothing else |
| `InterfaceRules.DefaultMediaType` | fusen-macro/procedural-macro/src/validate.rs:868-871 | a media type that is not given is application/json |
| `InterfaceRules.MethodAcceptedIff` | fusen-macro/procedural-macro/src/validate.rs:94-147 | a method is accepted if and only if it is lawful for the verb it spells: route, parameters, media types, and no response body for HEAD |
| `InterfaceRules.InterfaceAcceptedIff` | fusen-macro/procedural-macro/src/validate.rs:61-155 | an interface is accepted if and only if its names are identities, it has 1 to 65536 methods, all lawful, and no two of one verb have routes of the same shape |
| `InterfaceRules.TranslationKeeps` | fusen-macro/procedural-macro/src/validate.rs:94-147 | name, verb, route, media types and parameters of a method reach the generator as written or by default |
| `Capabilities.CollectSorts` | fusen-contract/src/http.rs:133-147 | collecting bindings gives a sorted list of exactly those ids |
| `Capabilities.VersionsRoundTrip` | fusen-nacos/src/register.rs:506-526 | encoded HTTP versions decode to the same set |
| `Capabilities.BindingsRoundTrip` | fusen-nacos/src/register.rs:493-504 | joined binding ids split back into the same list |
| `NacosCodec.MetadataRoundTrip` | fusen-nacos/src/register.rs:464-471 | user metadata, the selector's overlaid by the registration's, comes back unchanged and never hides a reserved key |
| `NacosCodec.ReservedValues` | fusen-nacos/src/register.rs:571-610 | none of the reserved keys overwrites another |
| `NacosCodec.KeysAreWellFormed` | fusen-nacos/src/register.rs:21-29 | the keys used are distinct and reserved |
| `NacosCodec.CapabilitiesRoundTrip` | fusen-nacos/src/register.rs:473-491 | the capabilities written are the capabilities read, under both conventions |
| `NacosCodec.RegistrationRoundTrip` | fusen-nacos/src/register.rs:419-626 | discovery reads a valid registration back with the same id, capabilities and weight, the endpoint of its own scheme, host, port and path, and the overlaid user metadata |
| `NacosCodec.UnbracketedHost` | fusen-nacos/src/register.rs:540-550 | the address is the host, without the brackets of an IPv6 literal and with nothing else lost |
| `NacosCodec.SelectedIff` | fusen-nacos/src/register.rs:392-417 | a selection yields exactly the decoded forms of the healthy, enabled, positively weighted instances with the selector's version and service, an absent service being accepted under the Spring Cloud convention alone |
| `NacosCodec.SelectionConcatenates` | fusen-nacos/src/register.rs:392-403 | a selection keeps the order and yields each instance at most once |
| `NacosCodec.RegisteredIsDiscovered` | fusen-nacos/src/register.rs:392-626 | a registered instance is discovered by its own selector as it was registered |
| `NacosCodec.OwnSelectorMatchesIff` | fusen-nacos/src/register.rs:405-417 | an encoded instance matches its own selector, and another one exactly when service and version are equal |
| `NacosCodec.DecodedCapabilitiesAreValid` | fusen-nacos/src/register.rs:473-491 | whatever metadata is read, decoded capabilities are valid |
| `NacosWire.DecodesIff` | fusen-nacos/src/register.rs:419-471 | an instance is read if and only if port, scheme, address, id, capabilities, weight and metadata keys are acceptable, and then as exactly these |
| `NacosWire.InstanceIdIff` | fusen-nacos/src/register.rs:453-459 | the id is the one in the metadata, else the provider's when there is none, and one made of address and port when that is not valid |
| `NacosWire.CapabilitiesReadIff` | fusen-nacos/src/register.rs:473-491 | capabilities are read if and only if described in full, or not at all under the Spring Cloud convention, which then means HTTP/1.1, the one standard binding and no controls |
| `NacosWire.DecodedVersionsIff` | fusen-nacos/src/register.rs:506-526 | exactly four version lists are read, each as its set |
| `NacosWire.DecodedBindingsIff` | fusen-nacos/src/register.rs:493-504 | exactly the comma-separated lists of unrepeated valid ids are read, as those ids |
| `NacosWire.AdvertisedAddress` | fusen-nacos/src/register.rs:540-615 | a registration needs a host and a port, and advertises them with its id and weight |
| `NacosWire.WrittenKeys` | fusen-nacos/src/register.rs:571-610 | the reserved entries, under their names on the wire |
| `NacosWire.WrittenCapabilities` | fusen-nacos/src/register.rs:618-626 | how version sets and invocation controls are written |
| `NacosProvider.BuildInstance` | fusen-nacos/src/register.rs:536-616 | filling the metadata map gives the encoding |
| `NacosProvider.ReadBindings` | fusen-nacos/src/register.rs:493-504 | the loop accepts exactly unrepeated valid ids |
| `NacosProvider.ReadHttpVersions` | fusen-nacos/src/register.rs:506-526 | the loop accepts exactly unrepeated known versions |
| `NacosProvider.NothingBeforeInitialize` | fusen-nacos/src/register.rs:338-369 | before the initial selection nothing is published |
| `NacosProvider.LatestUpdateWins` | fusen-nacos/src/register.rs:338-369 | the directory shows the latest listener update, whichever side of the initialization it came from, and the initial selection only while there is none |
| `NacosProvider.SnapshotGate.Initialize` | fusen-nacos/src/register.rs:338-350 | publishes the update held back, if there is one, instead of the initial selection; after a refusal the gate stays shut |
| `NacosProvider.SnapshotGate.Update` | fusen-nacos/src/register.rs:352-368 | held back before the initialization, published after it |

## Left out

- The HTTP transport, TLS, connection pools, server routing, retry backoff, the Nacos SDK, Tokio scheduling, tracing and metrics: only the steps they trigger appear, as events or clock readings.
- `run_subscription` as one loop: its await points are the places of a transition system, and `Supervisor.Handle` carries out one step in place; that the steps come in the order the loop asks for them is the `Enabled` predicate.
- The reconnect attempt counter and its jittered delay, which only decide when a delay ends.
- Steps of different supervisors interleave as wholes; the moment between the index update and the publication inside one snapshot update is not a separate state.
- `SupervisorModel.NextKeepsInv`: assumes that the revision has not reached 2^64 - 1, because the supervisor ignores a refused publication; whole runs are assumed shorter than that.
- `HotConfigModel.LastGoodView`: assumes runs shorter than 2^64 - 1 steps, so no revision overflows; the overflow branches themselves are modelled.
- `BreakerTheorems.ApplyKeepsInv`: takes the epoch as unbounded, while the code's wraps at 2^64.
- `BreakerLedger.OpensOnRetainedFailures`: compares the failure ratio in real numbers, without floating-point rounding; where a slice has saturated the counts fall short of the outcomes and the comparison is with the counts.
- `StoreHistory.StoreIsBetween`: needs strictly increasing lookup times, because the code breaks ties between equal times arbitrarily.
- `Memberships.ReplaceKeepsCoherent`: counts references without the saturation of `usize`.
- `NacosCodec.RegistrationRoundTrip`: takes the endpoint behind a scheme, address, port and base path from the URL library as a parameter, as empty path segments are not preserved; health and enablement are those the registry reports for a fresh registration.
- `Interfaces.Generate`: starts from parsed signatures and attributes; token parsing, generics and lifetimes are one flag per method, and media types are an abstract canonicaliser that maps its own output to itself.
- The sensitivity metadata attached to a generated descriptor, which takes no part in its validation.
- UTF-8 validity, whitespace and control characters of route text and of metadata keys: parameters shared by both sides.
- JSON objects are lists of members in order; the code's maps sort them, which no modelled result depends on. Numbers are opaque.
- Poisoned locks, clock overflow when a duration is added to an instant, and panics inside user-supplied destructors.
- RouteValidators.ValidateRoute: says exactly which paths are accepted and with which placeholders, but not which of several faults of a refused path is reported, because the two validators check in different orders and no caller distinguishes them.
- OperationValidators.ResolveParameters: likewise says which parameter lists are accepted and what they resolve to, not which fault is reported first.
- Error texts and source errors, beyond the kinds the callers distinguish.
