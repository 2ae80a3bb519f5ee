# Cartographer controllers in Dafny

A Dafny model of the part of Cartographer that decides what is written and what is deleted: the
level-triggered reconcile of an owner. Each reconcile reads the owner's persisted status, realizes an
ordered list of resources, recomputes conditions and statuses, deletes orphaned objects and writes the
status only if something changed. `dafny verify dfyconfig.toml` checks the whole project.

## What is proved

**As long as the same calls get the same answers, the status engine comes to rest, or it never does, and two
branches decide which.** `SelfWaking.RestlessOrSettled` speaks of every run of reconciles under unchanging facts,
for every starting status, every clock, every storage precision of times and every pattern of rejected updates.
A reconcile that stops before adding a condition, or whose first failing resource is a pass-through with a
missing input, attempts a status write in every round. Any other attempts none after the first accepted one, and
the stored status then never changes again. It rests on `Quiescence.RunSettles` (a realization over its own
stored result reproduces it to the last timestamp), on `Conditions.Rerun` (the same for one condition list, with
the exact condition under which it fails) and on `RunLaws.RunIgnoresClock`. `Production.RestlessFromSteps` says
for the production resource realizer which facts and steps never come to rest, without reference to any status.
`ConditionHistory.TimestampHistory` identifies every transition time over every history.

That answers are the same is a hypothesis, and not an empty one: the stamper walks maps in an order that Go does
not fix and reports the first leaf that fails, so a template with two reportable leaves may be answered with
two texts in turn. `Stamper.ReportIsUniqueExactly` says when the report does not depend on the order, and
`Quiescence.OtherErrorChangesExactly` that another error is noticed exactly if it turns into another condition.

**A skipped write loses the chain reference, or nothing.** `SkippedWrites.SkippedWriteLosesExactly` speaks of
facts that do change: over a status written under any earlier facts, a reconcile that does not write would
have written what is stored, to the last timestamp, exactly if it would not have changed the reference.

**What an owner is told.** `Readiness.OwnerReadyIs` says for every reconcile when the owner is reported ready, not ready
or unknown, `Records.ResourceReadyIs` the same for each resource, and `Records` what is recorded of a resource.
`Reconciler.RealizesExactly`, `Reconciler.StopsWithoutChain` and `Reconciler.StopsWith` say how far a reconcile gets.

**A failure never orphans.** `Cleanup.FailureNeverOrphans` follows the record of a resource that could not be
stamped through `Realize` into cleanup, for both lifecycles and whether or not its object can be read, and
`Cleanup.FailureOrphansExactly` says when another status of the same object spoils it. `Cleanup.RealizeAndCleanup`
performs both. No object leaks either: `LostOrphans.StampedIsKeptOrOrphaned`. `LostOrphans` also says what becomes of
an orphan that is not deleted.

**The submission cache refines always submitting.** `Interleaving.CacheRefinesAlwaysSubmit` relates every
interleaving of workers with the cache to the same schedule without it, and `Interleaving.RefinementExactly` says
which interleavings those are. That the cache never spares a patch in vain rests on `Interleaving.RunKeepsInv`,
which needs that a JSON merge patch (section 2 of RFC 7396) reaches what it was computed for; `Json.LandsExactly`
says on which objects it does. `ImmutableRuns` says exactly when an immutable submission creates an object,
whatever others write or remove in between.

**Selection, parameters, template evaluation, tokens, discriminants** are loops proved equal to declarative
readings.

Where the code does not do what one would expect, a lemma gives the case and the exact condition:

- a reconcile that adds no condition, and a missing pass-through input (a second, differing `SupplyChainReady`),
  write the status every round (`SelfWaking.RestlessWrites`, `Production.RestlessFromSteps`);
- the `changed` flag does not notice a condition that is no longer added (`Conditions.DisappearanceGoesUnnoticed`);
  conditions of distinct types survive an unchanged round exactly if their type is added again
  (`Conditions.UnchangedKeepsExactly`), and the list does exactly if the types are the same in order
  (`Conditions.UnchangedListExactly`);
- another supply chain with the same resources can take over without the stored reference following
  (`SkippedWrites.StaleReference`, `SkippedWrites.SkippedWriteLosesExactly`);
- a template with two reportable leaves is not always reported the same way (`Stamper.ReportIsUniqueExactly`);
- the branch of cleanup that handles a missing template is never taken (`Cleanup.NotFoundBranchIsDead`);
- an orphan whose deletion fails, or is not attempted because deciding on another one failed, is forgotten, unless
  the status write fails too (`LostOrphans.RetriedExactly`, `LostOrphans.LeftOrphanIsLost`);
- a failing resource can lose its object to another status of that object (`Cleanup.SecondStatusOrphans`,
  `Cleanup.FailureOrphansExactly`);
- an option that cannot be resolved is reported as `UnknownError`, because its error arrives wrapped
  (`Component.OptionErrorsAreUnknown`);
- once a resource is known, a pass-through never updates its recorded outputs: they are right exactly if they
  are those first passed through (`PassThroughRuns.RecordsPassedThroughExactly`, `PassThroughRuns.FirstOutputsStay`);
- a foreign write between a read and a patch can survive and then pass for submitted
  (`Interleaving.ForeignWriteSurvives`); it is harmless exactly if the patch lands on what was written
  (`Interleaving.DisturbanceIsHarmlessExactly`);
- an immutable submission without a spec creates an object on every call (`ImmutableRuns.SpeclessCreatesEveryTime`);
- a token request that states no lifetime is reused after its expiry (`Tokens.ReusableWhenExpired`).

## Conventions

- Every clock reading is a parameter, with a value of its own. Times of a stored status go through an arbitrary
  rounding function, because the API server keeps them at second precision.
- The resource realizer, the REST mapper and the health evaluator are function values; the answer of the
  realizer may depend on the call's position, the resource and the outputs seen. "Unchanging facts" therefore
  includes that these answers stay the same. The laws ask of the evaluator that it yields `Healthy` conditions
  and ignores output times; the production evaluator does (`Health.ProductionHealthIsTimeless`).
- JSON paths, label selectors, YAML rendering and digests are foreign: an object carries the results of its
  paths, an output value its rendering, a selector its label verdict.
- An object's API version is modelled as group and version.
- A pointer that may be nil is an `Option`. Where the source would dereference nil, the model has a precondition:
  `Params.Usable`, `Cleanup.Referenced`, and a multi match in an admitted health rule.
- The order in which a map is walked is a parameter, and may depend on the path and on what was walked before.
- The API server is a deterministic function of kind and spec that stores no null members of objects.

## Model

| member | source | states |
|---|---|---|
| `Conditions.ConditionManager.constructor` | pkg/conditions/condition_manager.go:80-87 | starts with no entries, successful and unchanged |
| `Conditions.ConditionManager.Record` | pkg/conditions/condition_manager.go:89-124 | appends the condition with the time of the last previous one of equal content, else the clock's; the flag rises iff the type is new or some previous condition of that type differs; updates the tally |
| `Conditions.ConditionManager.Add` | pkg/conditions/condition_manager.go:89-136 | the manager's conditions, flag and tally are at all times those of the sequence of adds |
| `Conditions.ConditionManager.IsSuccessful` | pkg/conditions/condition_manager.go:126-128 | true iff no add so far failed for its polarity |
| `Conditions.ConditionManager.Finalize` | pkg/conditions/condition_manager.go:138-164 | returns the recorded conditions with the aggregated top-level one last, and the flag; without adds, one Unknown condition and always changed |
| `Conditions.CarriedIsPreviousOrNew` | pkg/conditions/condition_manager.go:105-123 | a recorded condition has the added content and is either an element of the previous list or new at the time of the add, the latter if no previous one has its content |
| `Conditions.TallyIsVerdict` | pkg/conditions/condition_manager.go:92-103 | the aggregate is False iff some add failed, else Unknown iff some was Unknown, else True; it reports the last failure or the first unknown |
| `Conditions.TopIsVerdict` | pkg/conditions/condition_manager.go:138-164 | the last returned condition has the top-level type, the verdict over all adds as its status, and the reason and message of the last failure or else the first unknown, or "Ready" and none; without adds it is the only one, Unknown, new and a change |
| `Conditions.VerdictIgnoresOrder` | pkg/conditions/condition_manager.go:92-103 | the aggregated status does not depend on the order of the adds |
| `Conditions.UnchangedIsSound` | pkg/conditions/condition_manager.go:105-163 | unchanged only if every returned condition, time included, was in the previous list |
| `Conditions.UnchangedKeepsExactly` | pkg/conditions/condition_manager.go:105-163 | if unchanged, of previous conditions of distinct types exactly those survive, time included, whose type is recorded again; so none is lost iff all types are |
| `Conditions.UnchangedListExactly` | pkg/conditions/condition_manager.go:105-163 | if unchanged, over conditions of distinct types the list comes back unaltered, times included, iff the recorded types are the previous ones in order |
| `Conditions.ChangeIgnoresClock` | pkg/conditions/condition_manager.go:105-163 | the flag does not depend on any clock reading |
| `Conditions.InconsistentAlwaysChanges` | pkg/conditions/condition_manager.go:105-121 | a type that recurs with other content raises the flag over every previous list |
| `Conditions.Rerun` | pkg/conditions/condition_manager.go:89-164 | over its own stored result a round reports a change iff nothing was added or a type recurs with other content; with distinct types it returns the stored list to the last timestamp |
| `Conditions.DisappearanceGoesUnnoticed` | pkg/conditions/condition_manager.go:105-121 | a condition that is no longer added does not raise the flag |
| `Conditions.RepetitionGoesUnnoticed` | pkg/conditions/condition_manager.go:105-121 | a condition that is added twice does not raise the flag either, although the list grows |
| `ConditionHistory.TimestampHistory` | pkg/conditions/condition_manager.go:89-164 | over any history of rounds, from any first list and with times stored at any precision, a condition's time is the clock reading of its entry in the first round of the latest unbroken stretch with its content, or the time it had in the first list if the stretch goes back there, as storage keeps it; that stretch exists and the rest determines the time |
| `ConditionHistory.KeptOnce` | pkg/conditions/condition_manager.go:105-123 | if storage always rounds the same way and rounding is idempotent, a stretch keeps its time rounded once |
| `Statuses.ResourceStatuses.constructor` | pkg/realizer/statuses/resource_statuses.go:37-52 | tracks every persisted status in order, with nothing current |
| `Statuses.ResourceStatuses.IsChanged` | pkg/realizer/statuses/resource_statuses.go:77-93 | true iff some tracked resource is not current, is new, has changed conditions or a different record |
| `Statuses.ResourceStatuses.GetCurrent` | pkg/realizer/statuses/resource_statuses.go:95-105 | the current statuses in tracked order |
| `Statuses.ResourceStatuses.GetPreviousResourceStatus` | pkg/realizer/statuses/resource_statuses.go:107-115 | the persisted status of the first entry of that name |
| `Statuses.ResourceStatuses.Add` | pkg/realizer/statuses/resource_statuses.go:117-139 | sets the status of the first entry of the name, or appends one, with the conditions assessed against what was persisted |
| `Statuses.ResourceStatuses.CreateConditions` | pkg/realizer/statuses/resource_statuses.go:168-196 | the finalized round of submission or error, then the further conditions |
| `Realizer.GenerateOutputs` | pkg/realizer/realizer.go:287-323 | the outputs are those of a source, else an image, else a configuration, each with its name, preview and digest; absent iff one of these values cannot be marshalled; no two share a name |
| `Realizer.GetOutputs` | pkg/realizer/realizer.go:263-283 | each output keeps the time of the first previous output of its name if the digest agrees; if marshalling fails the previous outputs are kept |
| `Realizer.OutputTimeIs` | pkg/realizer/realizer.go:268-279 | an output keeps the time of the first previous output of its name iff that has the same digest; otherwise, and if there is none, it gets the time of the clock |
| `Realizer.GenerateRealizedResource` | pkg/realizer/realizer.go:193-261 | the record of a resource: references, inputs in order, outputs only with a template or a pass-through |
| `Realizer.RealizeOne` | pkg/realizer/realizer.go:126-188 | one turn of the loop: keeps the old record and health if nothing was stamped, tells a retrieval failure the health, and records the outcome |
| `Realizer.Realize` | pkg/realizer/realizer.go:107-191 | every resource is tried in order; statuses and first error are those of the steps, each of which depends only on persisted statuses, earlier outputs and the clock |
| `Records.StampedIsRecorded` | pkg/realizer/realizer.go:193-261 | a stamped object is recorded with its reference, qualified resource, and the kind and name of its template |
| `Records.OutputsAreRecorded` | pkg/realizer/realizer.go:219-233 | outputs are recorded with a template or a pass-through, those made now, or the earlier ones if these cannot be marshalled; otherwise none |
| `Records.InputsAreRecorded` | pkg/realizer/realizer.go:202-217 | sources, images, deployment and configurations, in this order |
| `Records.RunRecordsStamped` | pkg/realizer/realizer.go:107-191 | after a run every object stamped for the latest resource of a name is recorded under that name, with its template |
| `Records.HealthIsRecorded` | pkg/realizer/realizer.go:131-158 | the evaluator's verdict on the rule, the record and the object, or the earlier health of a kept record |
| `Records.ErrorIsPassedOn` | pkg/realizer/realizer.go:160-171 | an error is passed on unaltered, but a failure to read an output is told the recorded health |
| `Api.AsRetrieveOutputIs` | pkg/realizer/realizer.go:162-163 | the outermost failure to retrieve an output among the causes of an error |
| `Records.SubmissionIs` | pkg/conditions/owner_conditions.go:27-42 | submitted, as a pass-through or completely; an error makes it False, or Unknown if an output is only waited for |
| `Records.ResourceReadyIs` | pkg/realizer/statuses/resource_statuses.go:168-196 | Ready is False on a failure or bad health, else Unknown while an output is waited for or health is unknown, else True |
| `Quiescence.OutputsSettle` | pkg/realizer/realizer.go:263-283 | outputs generated over their own stored record come back with the stored times |
| `Quiescence.StepSettles` | pkg/realizer/realizer.go:126-171 | realizing a resource again over its own stored status, with the same answer, gives that status, no change and the same error, whichever branch either call takes |
| `Quiescence.StepIgnoresClock` | pkg/realizer/realizer.go:126-171 | the clock decides times only: contents, change flag, error and equality with the old record are the same under any two clocks |
| `Quiescence.RunShape` | pkg/realizer/statuses/resource_statuses.go:117-139 | at every point the persisted names come first in order, new names follow once each, and the first entry of a name holds the outcome of the latest resource of that name |
| `Quiescence.RunSummary` | pkg/realizer/realizer.go:114-189 | afterwards every realized name occurs exactly once, with the outcome of its latest resource, and nothing else occurs |
| `Quiescence.RunSettles` | pkg/realizer/realizer.go:107-191 | quiescence: a second realization over the stored result of the first changes nothing, every condition and output time included, for any persisted list, answers and clocks |
| `Quiescence.ErrorSettles` | pkg/realizer/realizer.go:182-190 | with distinct names the second realization returns the error of the first |
| `Quiescence.OtherErrorChangesExactly` | pkg/conditions/workload_conditions.go:81-104 | realizing again over the stored status, with an answer that differs in its error only, reports a change iff the error turns into another condition |
| `PassThroughRuns.RecordsPassedThroughExactly` | pkg/realizer/realizer.go:131-141 | the recorded outputs are those passed through iff the resource was not known before or its record had them already |
| `PassThroughRuns.RecordFreezes` | pkg/realizer/realizer.go:131-141 | over any history of realizations and writes, the record of a known name stays as it was while the name stays a pass-through |
| `PassThroughRuns.FirstOutputsStay` | pkg/realizer/realizer.go:131-141 | from its first realization on, the recorded outputs of a pass-through are those first passed through; a later record is right iff the same is passed through again |
| `RunLaws.SeenAreEarlierOutputs` | pkg/realizer/outputs.go:27-29 | call i sees the outputs of exactly the resources before it |
| `RunLaws.FirstErrorIsFirst` | pkg/realizer/realizer.go:182-190 | the returned error is the first in list order, and there is none iff every resource succeeded |
| `RunLaws.RunRecordsExactly` | pkg/realizer/statuses/resource_statuses.go:95-139 | one status per resource: the still existing persisted names in old order, then the new ones in list order |
| `RunLaws.UnchangedRunIsPersisted` | pkg/realizer/statuses/resource_statuses.go:77-93 | an unchanged realization has the persisted records in order, and each of its conditions, time included, was persisted |
| `RunLaws.RunIgnoresClock` | pkg/realizer/realizer.go:107-191 | whether anything changed, all contents and the error are the same under any two clocks |
| `Health.AnyUnhealthyMatch` | pkg/realizer/healthcheck/healthcheck.go:150-170 | the first unhealthy requirement that holds, conditions before fields, and none iff none holds |
| `Health.AllHealthyMatch` | pkg/realizer/healthcheck/healthcheck.go:172-197 | a match iff every healthy requirement holds, explained by the first one |
| `Health.MultiMatchStatus` | pkg/realizer/healthcheck/healthcheck.go:124-134 | False iff an unhealthy requirement holds, else True iff all healthy ones do, else Unknown |
| `Health.SingleConditionIs` | pkg/realizer/healthcheck/healthcheck.go:112-122 | the status of the object's first condition of the type if that is True or False, with its message; Unknown otherwise |
| `Health.ConditionHoldsExactly` | pkg/realizer/healthcheck/healthcheck.go:151-153 | a condition requirement asks for the status of the object's first condition of the type |
| `Health.UnhealthyIsExplained` | pkg/realizer/healthcheck/healthcheck.go:150-170 | bad health is explained by the first unhealthy requirement that holds: the status and message of the object's condition, or the field |
| `Health.HealthyIsExplained` | pkg/realizer/healthcheck/healthcheck.go:172-197 | good health is explained by the first healthy requirement, a condition if there is one |
| `Health.FieldIsExplained` | pkg/realizer/healthcheck/healthcheck.go:136-148 | a field is explained by its value and the value at the message path |
| `Health.HealthIsExactly` | pkg/realizer/healthcheck/healthcheck.go:62-92 | for each kind of rule, and without one, when health is True and when it is False; otherwise Unknown |
| `Health.EvaluatorsAgree` | pkg/realizer/healthcheck/healthcheck.go:62-110 | on an existing object both evaluators give the same status for every admitted rule |
| `Health.WithoutRuleTheyDiffer` | pkg/realizer/healthcheck/healthcheck.go:62-101 | without a rule they agree iff there are outputs, or a cluster template with a stamped object |
| `Health.ProductionHealthIsTimeless` | pkg/realizer/healthcheck/healthcheck.go:62-92 | the production evaluator yields Healthy conditions and ignores output times |
| `Reconciler.OwnerHealthCondition` | pkg/realizer/healthcheck/healthcheck.go:41-60 | the aggregate of the resources' Healthy conditions, under the reason HealthyConditionRule |
| `Reconciler.WorkloadReconciler.FindChain` | pkg/controllers/workload_reconciler.go:257-291 | exactly one chain for a labelled workload, or the condition of the path on which the search ends |
| `Reconciler.WorkloadReconciler.Prepare` | pkg/controllers/workload_reconciler.go:98-148 | the conditions added on each path on which a reconcile stops early |
| `Reconciler.RealizesExactly` | pkg/controllers/workload_reconciler.go:98-148 | a chain is realized iff it is the only one for a labelled workload, of a registered kind, its first Ready condition is True, and service account, token and realizer are had |
| `Reconciler.StopsWithoutChain` | pkg/controllers/workload_reconciler.go:257-291 | no labels, a failed lookup, no chain and several chains: what is added, with status, reason and message |
| `Reconciler.StopsWith` | pkg/controllers/workload_reconciler.go:108-148 | after one chain is found: an unregistered kind adds nothing; a chain that is not ready adds False with the reason and message of its first Ready condition; then each of the three errors adds its own |
| `Reconciler.ReferenceFollows` | pkg/controllers/workload_reconciler.go:108-117 | the reference becomes the only chain of a registered kind, ready or not, and otherwise stays |
| `Reconciler.WorkloadReconciler.CompleteReconciliation` | pkg/controllers/workload_reconciler.go:199-227 | a write is attempted iff conditions, generation or resources changed; an accepted one stores conditions, resources and generation, otherwise nothing is stored |
| `Reconciler.WorkloadReconciler.Reconcile` | pkg/controllers/workload_reconciler.go:73-197 | the stored status and the write decision of a whole reconcile |
| `Readiness.OwnerReadyIs` | pkg/controllers/workload_reconciler.go:98-197 | Ready is True iff a chain is realized without an error and is healthy; False on a stop with a condition, an error other than a missing output, or bad health; else Unknown |
| `Readiness.WrittenNamesAre` | pkg/controllers/workload_reconciler.go:199-210 | a stopped reconcile keeps every resource record; one that realizes a chain leaves exactly one per resource of the chain |
| `SelfWaking.RestlessIsInconsistent` | pkg/conditions/workload_conditions.go:72-104 | a reconcile's conditions have distinct types, unless it added none or its first error is a missing pass-through, and then they clash |
| `SelfWaking.RestlessWrites` | pkg/controllers/workload_reconciler.go:199-216 | such a reconcile writes over every status |
| `SelfWaking.OwnerHealthIsVerdict` | pkg/realizer/healthcheck/healthcheck.go:41-60 | owner health is False iff a resource is unhealthy, else Unknown iff one is unknown or none has health, else True |
| `Readiness.OwnerHealthCovers` | pkg/realizer/healthcheck/healthcheck.go:41-60 | owner health aggregates the first Healthy condition of every resource that has one, as ResourcesHealthy for the reason HealthyConditionRule |
| `SelfWaking.GateIgnoresClock` | pkg/controllers/workload_reconciler.go:199-216 | the write decision is the same under any two clocks |
| `SelfWaking.SecondReconcile` | pkg/controllers/workload_reconciler.go:199-227 | after an accepted write the same facts lead to a write iff the reconcile is restless; otherwise the stored status is to the last timestamp what it would write |
| `SelfWaking.RestlessOrSettled` | pkg/controllers/workload_reconciler.go:73-227 | over every run with the same answers to the same calls, either every round attempts a write, or none does after the first accepted or idle one and the stored status stays the same |
| `SkippedWrites.UnchangedRunKeeps` | pkg/realizer/statuses/resource_statuses.go:77-105 | over statuses that any realization recorded, one that reports no change, with other resources and answers, would record them to the last timestamp |
| `SkippedWrites.SkippedWriteLosesExactly` | pkg/controllers/workload_reconciler.go:199-216 | over a status written under any earlier facts, a reconcile that does not write would have written the stored status but for the reference to the chain, and so the stored status iff that reference stays |
| `SkippedWrites.StaleReference` | pkg/controllers/workload_reconciler.go:116-117 | over the status of a realization without an error, another chain with the same resources and answers is not written although the reference would change |
| `Cleanup.NotFoundBranchIsDead` | pkg/repository/repository.go:247-269 | the error for a missing template never counts as not found |
| `Cleanup.FindEquivalent` | pkg/controllers/workload_reconciler.go:357-372 | fails iff the previous object cannot be read while something is realized; otherwise orphaned iff nothing realized is equivalent |
| `Cleanup.CleanupOrphanedObjects` | pkg/controllers/workload_reconciler.go:335-392 | any failure while deciding deletes nothing; otherwise the orphans in order up to the first failing delete, and all of them iff it succeeds |
| `Cleanup.OrphansAreExactly` | pkg/controllers/workload_reconciler.go:342-376 | an object is an orphan iff some previous status names it and no realized resource is equivalent |
| `Cleanup.MutableOrphanedExactly` | pkg/controllers/common.go:38-42 | the object of a mutable template is an orphan iff nothing realized is that object |
| `Cleanup.ImmutableOrphanedExactly` | pkg/controllers/common.go:44-69 | the object of an immutable or Tekton template is an orphan iff it is gone, or nothing realized has its resource name, template name and kind; if its label is missing or says mutable, iff nothing realized is that object; a failed read makes cleanup give up iff something is realized |
| `Cleanup.UnreadTemplateAborts` | pkg/controllers/common.go:71-93 | a template of an unknown kind, missing or unreadable makes cleanup give up |
| `Cleanup.KindsAre` | pkg/apis/v1alpha1/common.go:143-161 | the five kinds of templates that can be looked up |
| `Cleanup.MutableOrphansAreUnreferenced` | pkg/controllers/common.go:38-42 | an orphan all of whose previous statuses have mutable templates is referenced by no current status |
| `Cleanup.CarriedOverIsAccounted` | pkg/controllers/common.go:38-69 | a record carried over unaltered accounts for its own object under either test, unless the object is gone, or cannot be read and cleanup gives up |
| `Cleanup.FailureKeepsRecord` | pkg/realizer/realizer.go:126-141 | that record is among the current statuses at the end |
| `Cleanup.FailureNeverOrphans` | pkg/controllers/workload_reconciler.go:342-391 | for both lifecycles the object of a resource that is not stamped this time is not among the orphans unless it is gone or cleanup gives up, provided that previous statuses of that object which are compared by name and template agree in these |
| `Cleanup.FailureOrphansExactly` | pkg/controllers/workload_reconciler.go:342-376 | otherwise that object is an orphan iff some previous status of it is compared by name and template and nothing realized has these |
| `Cleanup.SecondStatusOrphans` | pkg/controllers/common.go:44-69 | two statuses of one object of which the first fails and the second is no longer realized: the object is an orphan |
| `Cleanup.RunKeepsReferenced` | pkg/realizer/realizer.go:219-252 | statuses that name an object keep naming its template, so cleanup never dereferences a missing one |
| `Cleanup.RealizeAndCleanup` | pkg/controllers/workload_reconciler.go:150-175 | a realization and its cleanup: deletes nothing if deciding fails, else a prefix of the orphans and all of them on success; never an existing object of a resource that could not be stamped, under the proviso above; and leaves statuses fit for the next cleanup |
| `LostOrphans.ConsideredExactly` | pkg/controllers/workload_reconciler.go:342-376 | some later cleanup finds an object to be an orphan iff a stored status names it with a template of a known kind |
| `LostOrphans.StampedIsKeptOrOrphaned` | pkg/controllers/workload_reconciler.go:335-392 | an object that a realization stamped under a mutable template is, once the status is written, an orphan of the next realization iff that one records it no more |
| `LostOrphans.OrphanIsAChange` | pkg/controllers/workload_reconciler.go:172-205 | with mutable templates a realization that leaves an orphan has changed, so a write is attempted |
| `LostOrphans.RetriedExactly` | pkg/controllers/workload_reconciler.go:172-216 | with mutable templates an orphan, deleted or not, is considered again iff the status write of its round was not accepted |
| `LostOrphans.LeftOrphanIsLost` | pkg/controllers/workload_reconciler.go:172-216 | after an accepted write no cleanup in any later round considers the orphan until its object is stamped again |
| `Component.AnswerShapes` | pkg/realizer/component.go:77-151 | an object never comes without its template, a pass-through has neither, and there is an output iff there is no error |
| `Component.TemplateFails` | pkg/realizer/component.go:98-257 | which error the first failing step gives, what is returned beside it, and what a success returns |
| `Component.PassThroughComesTo` | pkg/realizer/component.go:299-330 | a pass-through yields its input's value, a plain error for an unknown kind, or the error of a missing input |
| `Component.OptionErrorsAreWrapped` | pkg/realizer/component.go:332-360 | a failure to choose an option gives one of two errors, wrapped twice, and nothing beside it |
| `Component.GetTemplateNameFromResource` | pkg/realizer/component.go:153-175 | the template's name without options; else unresolved iff a selector is erroneous, ambiguous if there is not one best option, else what the only best option stands for |
| `Component.MissingPassThroughExactly` | pkg/realizer/component.go:299-330 | the error of a missing pass-through input arises exactly on the pass-through path with a known kind and no input |
| `Component.OptionErrorsAreUnknown` | pkg/realizer/component.go:94-97 | a failure to choose an option is reported with reason UnknownError |
| `Api.ErrorConditionIs` | pkg/conditions/workload_conditions.go:81-104 | the type, status, reason and message of the condition that each error turns into |
| `Api.HealthIsTold` | pkg/conditions/owner_conditions.go:64-83 | the message of a missing value tells healthy, unhealthy and waited-for objects apart |
| `Production.ObjectsComeWithTemplates` | pkg/realizer/component.go:77-151 | every answer of the production realizer meets what cleanup relies on |
| `Production.RestlessFromSteps` | pkg/realizer/component.go:299-330 | with the production realizer a reconcile never comes to rest iff it stops without a condition or its first failing resource is a pass-through with a missing input; no status and no clock has a say |
| `Json.PatchReaches` | pkg/repository/repository.go:301-307 | a merge patch applied to the object it was computed against yields the intended object, less its nulls |
| `Json.LandsExactly` | pkg/repository/repository.go:301-307 | a merge patch computed against one object yields its goal on another iff that one agrees with the first where the patch says nothing and has nothing else under what it installs |
| `Submission.UndisturbedPatch` | pkg/repository/repository.go:301-314 | unless someone wrote in between, a patch lands, and leaves what the server makes of the submission |
| `Submission.LandedPatch` | pkg/repository/repository.go:301-314 | a patch that lands leaves what the server makes of the submission |
| `Submission.PatchIsRightExactly` | pkg/repository/repository.go:301-314 | the patch is right for every server that stores no nulls iff it lands |
| `Submission.HitIsRight` | pkg/repository/cache.go:102-141 | a hit means that the object has the spec the server makes of the submission, whatever shares the key |
| `Submission.RecordingIsFaithful` | pkg/repository/cache.go:53-59 | recording keeps every entry paired with what the server makes of it |
| `Submission.KeysAgreeExactly` | pkg/repository/cache.go:143-154 | submissions without colons share a key iff they share namespace, kind, name or name prefix, and discriminant |
| `Submission.Cache.Set` | pkg/repository/cache.go:53-59 | replaces both halves of the entry under the key |
| `Submission.Cache.UnchangedSinceCached` | pkg/repository/cache.go:84-100 | a hit iff the submission is the recorded one and the existing spec is present and the recorded one |
| `Submission.Cache.UnchangedSinceCachedFromList` | pkg/repository/cache.go:61-82 | the first listed object that is a hit, if any |
| `Submission.Repository.EnsureMutableObjectExistsOnCluster` | pkg/repository/repository.go:134-158 | whether it creates, patches or skips, success leaves exactly what the server makes of the submission and touches nothing else; failure changes nothing |
| `Submission.Repository.EnsureImmutableObjectExistsOnCluster` | pkg/repository/repository.go:160-185 | creates iff no listed object is a hit; never alters or removes an object |
| `Interleaving.RunKeepsInv` | pkg/repository/repository.go:134-158 | over every interleaving in which the patches land, each entry's persisted spec is what the server makes of its submission |
| `Interleaving.CacheRefinesAlwaysSubmit` | pkg/repository/repository.go:134-158 | every interleaving in which no spared patch would have changed the object leaves the cluster that the same schedule leaves when every submission is written |
| `Interleaving.RefinementExactly` | pkg/repository/repository.go:134-158 | the two agree at every point iff no spared patch would have changed the object |
| `Interleaving.SparedIsSubmittedExactly` | pkg/repository/repository.go:141-150 | sparing a submission and making it come to the same iff the patch leaves the object as it is |
| `Interleaving.FaithfulCacheSpares` | pkg/repository/repository.go:134-158 | with patches that land, that is so as long as nobody writes between a read and a spared submission |
| `Interleaving.OneWorkerAlone` | pkg/repository/repository.go:134-158 | the four steps of one worker come to what the repository does in one call |
| `Interleaving.ForeignWriteSurvives` | pkg/repository/repository.go:301-309 | a foreign spec can survive the patch, is then recorded, and passes as a hit |
| `Interleaving.DisturbanceIsHarmlessExactly` | pkg/repository/repository.go:301-309 | a write between read and patch leaves the right spec and a faithful cache, for every server, iff the patch lands on what was written |
| `ImmutableRuns.ObjectsAreKept` | pkg/repository/repository.go:160-185 | no run of immutable submissions alters or removes an object that others leave alone |
| `ImmutableRuns.CreatesExactly` | pkg/repository/repository.go:160-185 | after any run of calls and of writes and removals by others, from a cold cache, a call creates iff its submission is not the last accepted under its key, or has no spec, or no listed object has that spec |
| `ImmutableRuns.OthersAreNotReused` | pkg/repository/repository.go:160-185 | only objects of the kind, in the namespace and with all owner labels are reused |
| `ImmutableRuns.RecreatedOnlyAfterLoss` | pkg/realizer/component.go:181-217 | a submission with a spec that is still the last accepted under its key creates again only if others wrote or removed the object created for it |
| `ImmutableRuns.RepetitionCreatesOnce` | pkg/repository/repository.go:160-185 | repeating a submission with a spec, among any under other keys, creates at most one object more than others take away, one less if one fitted already; at that number a fitting one is there |
| `ImmutableRuns.SpeclessCreatesEveryTime` | pkg/repository/cache.go:119-131 | a submission without a spec creates an object on every call |
| `ImmutableRuns.Ensure` | pkg/repository/repository.go:160-185 | a repository whose listings agree with the ledger moves exactly as the ledger does |
| `SelectorMatching.MatchesAllFields` | pkg/selector/matcher.go:99-112 | a match iff every requirement matches; a missing path is a mismatch, another error before it fails |
| `Fields.OperatorsMean` | pkg/selector/selector.go:24-55 | what In, NotIn, Exists and DoesNotExist ask of the value at the path, when the path is missing, and when matching fails |
| `SelectorMatching.OutcomeIs` | pkg/selector/matcher.go:56-87 | a selector scores iff labels and all fields match, with the number of its requirements; it is erroneous iff its labels are, or they match and the first field not to match fails |
| `SelectorMatching.BestSelectorMatchIndices` | pkg/selector/matcher.go:52-97 | ascending, exactly the matching indices of highest score of at least one; an error names the first erroneous selector |
| `SelectorMatching.EmptyMeansNoMatch` | pkg/apis/v1alpha1/common_validations.go:78-81 | over admitted selectors an empty selection means that nothing matches |
| `SelectorMatching.FindMatchingTemplateOption` | pkg/realizer/component.go:332-360 | without an erroneous selector the unique best option if there is one, else the names of all best ones; otherwise the name of the first erroneous one |
| `Params.Layer` | pkg/realizer/params.go:52-72 | a layer answers with its last parameter of the key and protects the key iff that one fixes a value |
| `Params.Merge` | pkg/realizer/params.go:41-83 | every key has the last owner value unless the governing parameter fixes one, else the governing parameter, else the last default |
| `Params.Precedence` | pkg/realizer/params.go:41-88 | the last parameter of the resource governs a key, or else the last of the blueprint; its value prevails, else the last owner value, else its default, else the last template default |
| `Params.ChosenDomain` | pkg/realizer/params.go:41-83 | a key is answered iff it occurs in some layer |
| `Params.OwnerOverride` | pkg/realizer/params.go:74-88 | an owner value prevails iff the governing parameter does not fix a value |
| `Stamper.EvaluateTemplates` | pkg/templates/stamper.go:96-140 | gives the stamped tree, or the path of the first failing leaf under the order in which maps are walked, below the path walked before |
| `Stamper.EvaluateMembers` | pkg/templates/stamper.go:109-120 | the same for the members of an object, in any order |
| `Stamper.EvaluateItems` | pkg/templates/stamper.go:121-136 | the same for the items of a list: the report is that of the first failing item |
| `Stamper.ReportIsReportable` | pkg/templates/stamper.go:96-140 | under any order nothing is reported iff every leaf can be interpolated; otherwise a failing leaf each of whose list positions is the first failing one |
| `Stamper.ReportableIsReported` | pkg/templates/stamper.go:109-120 | each such leaf is reported under some order |
| `Stamper.ReportIsUniqueExactly` | pkg/templates/stamper.go:96-140 | the report does not depend on the order of map iteration iff there is at most one such leaf |
| `Stamper.EvaluableExactly` | pkg/templates/stamper.go:96-140 | evaluation fails iff some path leads to a string that cannot be interpolated |
| `Stamper.StampedCorresponds` | pkg/templates/stamper.go:96-140 | at every path the result has the same keys, length or scalar, and the interpolation in place of a string |
| `Tokens.ReusedExactly` | pkg/satoken/token_manager.go:142-161 | a token is reused iff its age is at most min(2h, TTL - floor(TTL/2)) less the jitter |
| `Tokens.ReusedWellInside` | pkg/satoken/token_manager.go:142-161 | ten seconds inside the bound it is reused for every jitter draw |
| `Tokens.ReusedIsLive` | pkg/satoken/token_manager.go:138-161 | with a stated non-negative lifetime a reused token has not expired |
| `Tokens.ReusableWhenExpired` | pkg/satoken/token_manager.go:143-161 | an expired token can be reused iff no lifetime is stated, or a negative one outweighs the jitter |
| `Tokens.GrantIsReused` | pkg/satoken/token_manager.go:80-109 | a granted token is handed out again without asking while its age is within the bound less the jitter |
| `Tokens.RefusalIsBridged` | pkg/satoken/token_manager.go:96-105 | a failed refresh is bridged by the old token exactly until that expires |
| `Tokens.Manager.GetServiceAccountToken` | pkg/satoken/token_manager.go:80-109 | asks for a token iff none is cached or it needs a refresh; falls back on an unexpired cached one; caches what is granted |
| `Tokens.Manager.Cleanup` | pkg/satoken/token_manager.go:111-119 | drops exactly the expired tokens |
| `Tokens.NoExpiredTokenFromCache` | pkg/satoken/token_manager.go:80-119 | over any history whose grants state a lifetime no cached token is handed out past its expiry |
| `Discriminant.SortedKeys` | pkg/repository/repository.go:512-516 | the keys in increasing order, whatever order they are met in |
| `Discriminant.LeqExactly` | pkg/repository/repository.go:512-516 | the order is lexicographic: the smaller character at the first difference, or a prefix |
| `Discriminant.BuildOwnerDiscriminant` | pkg/repository/repository.go:509-523 | the rendering of the increasing keys |
| `Discriminant.OneDiscriminant` | pkg/repository/repository.go:509-523 | a label map has exactly one discriminant, whatever the iteration order |
| `Discriminant.DiscriminantInjective` | pkg/repository/repository.go:518-522 | label maps without braces and colons have equal discriminants only if they are equal |
| `Discriminant.DelimitersCollide` | pkg/repository/repository.go:518-522 | a value that spells out the next pair collides with the map that has that pair, for all keys and values |

## Left out

- The deliverable reconciler: it has the same cleanup and write gate as the workload reconciler.
- The supply chain, delivery and runnable reconcilers: plumbing around the condition manager.
- Dependency and stamped-object tracking, watches, events, logging and the error a reconcile returns for a requeue: they do not feed back into status or cleanup.
- `ChangedConditionTypes`: it decides which event is emitted, nothing else.
- Garbage collection of old immutable objects and the choice of the latest successful one: their results enter as the answer of the resource realizer, and as removals by others in `ImmutableRuns`.
- `Stamp`'s namespace check, owner references and label merge, and ytt: easy, or foreign.
- Human-readable rendering of paths and messages, beyond equality of messages.
- `ObservedGeneration` of a condition, which no code sets.
- The health condition for an absent realized resource: a realization always passes one.
- Drift outside the spec: the cache compares specs only, and so does the model of the cluster; labels or data changed by others are not restored on a hit.
- Overflow of 64-bit durations, for token lifetimes beyond two centuries.
- Fields that a server keeps as explicit nulls: the model of the server drops null members.
- Reads during cleanup see one snapshot of the API server, and a delete answers by its position in the sequence of deletes.
- `Quiescence.ErrorSettles`: asks for distinct resource names, which the supply chain webhook enforces; statuses settle without that.
- `SkippedWrites.StaleReference`: takes the resources to be answered as before under the other chain's name; errors, which name the chain, are excluded, and so is an immutable object that is stamped anew because its labels name the chain.
- `LostOrphans.RetriedExactly`: for mutable templates; under the immutable test a current status may still name an orphan, and `LostOrphans.ConsideredExactly` then decides.
- `Component.GetTemplateNameFromResource`: the wording of its errors is a parameter.
