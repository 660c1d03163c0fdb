# A verified model of sym-ops

sym-ops is a two-level Kubernetes operator. A master reconciles AppSets: it fans each one out to many
clusters as AdvDeployments, collects their statuses, migrates between clusters and cleans up. A worker in
each cluster reconciles one AdvDeployment: it applies the rendered objects, reports a status and removes
Deployments that are no longer rendered. This project models their hardest parts in Dafny and proves what
they keep, what they compute and exactly when they fail to.

| files | part of the system |
|---|---|
| FanOut | the concurrent fan-out over clusters: goroutines, WaitGroup, channels and collectors as a step machine |
| Version, VersionOrder, VersionText, PodVersions | version texts: parse, unite, sort as numbers, print; arrival order; character by character; the worker's own list |
| AppSetStatus, EndToEnd, Collected | the AppSet status, independent of the schedule; what Running means down to the replicas, and for which clusters |
| ZoneList, Migration, Finalizer | which AdvDeployments may be removed; runs of the migration; runs of the finalizer protocol |
| Prune, PruneLimit, JsonText | JSON pruning: one pass, the limit, the exact number of passes, what is kept; on texts, with what can fail |
| Context, Worker, WorkerSafety | the worker's step list on its mutable context, aggregation, garbage collection |
| StatusWrite | the optimistic status write against an API server with other writers and faults |
| DeepCopy, DeepCopySpec | the generated deep copies as heap programs |
| Base64, Annotation, K8sObject | the last-applied annotation and the cached rendered object |
| Prelude, Api | fixed-width integers, sums, permutations; the shared API values |

## How it is modelled

Loops and objects updated in place are methods and classes with the source's control flow, each proved
against a specification function; the theorems are lemmas about those functions, and where a function only
computes, a lemma states its result in the fields of its inputs. Goroutines, and actors
that interleave across processes (master, users, environment), are state machines, and their theorems
speak of every run. int32 totals and counters wrap as in Go. Calls into Kubernetes, Helm, JSON, YAML and
zip are parameters: their answers are arbitrary, within what each module states.

The module is Go 1.17 (`go.mod:3`), so `&deploy` in a `for range` loop is the address of one shared
variable; Worker models that with one heap cell. The master's step loop is switched off by an early return
(`controllers/appset/reconcile.go:133`); Finalizer and Migration take the step order from
`controllers/appset/reconcile.go:109-117`. The status that the unused-cluster step reads is stored under
another dynamic type (`controllers/appset/step.go:225`, `:416`) and would always be read as empty, so
Migration lets a pass take either of its two lists at any time.

Results that differ from the code's comments or purpose, each with its exact condition:

- An AppSet under deletion can still be applied, once, exactly when the round at hand had read it before with
  the master's finalizer: `Finalizer.AppliesLaterIff`, `Finalizer.OldSnapshotCreates`.
- A failed delete counts as "nothing changed", so the finalizer can be removed while a cluster still holds
  the AdvDeployment: `Finalizer.RemovalOrphansIff`, `Finalizer.FailedDeleteOrphans`. The next round, which finds
  the AppSet gone, deletes it wherever the delete does not fail: `Finalizer.OrphansAreCleared`.
- Running speaks only for the clusters that answered; it speaks for the whole spec iff every one did:
  `Collected.WholeSpecRunsIff`, `Collected.DroppedClusterIsInvisible`.
- The zone-aware list can name the only running member of a wanted zone:
  `ZoneList.ZoneSurvivesIff`, `ZoneList.LastMemberOfAZoneCanBeListed`.
- The clean-up deletes the last listed workload, once for every unused one: `WorkerSafety.DeletesOwnedIff`,
  `WorkerSafety.DeletesExactlyUnusedIff`, `WorkerSafety.AnOwnedDeploymentCanBeDeleted`.
- A chart with at most one Deployment and at most one StatefulSet never gets a status, and every live run
  that reaches the status ends in an error: `WorkerSafety.StatusNeedsTwoWorkloads`,
  `WorkerSafety.SingleWorkloadHasNoStatus`, `Worker.Reconcile`.
- StatefulSets are looked up as Deployments, so a chart of StatefulSets owns none of them:
  `WorkerSafety.StatefulSetsAreNeverOwned`.
- The status write marks as observed the generation it reads then, not the one the run applied:
  `Worker.ObservedAheadOfAppliedIff`, `StatusWrite.EditIsMarkedObserved`.
- Merged versions depend on the order of arrival unless it does not matter which one arrives last:
  `VersionOrder.OrderIndependentIff`, `AppSetStatus.VersionCanDependOnSchedule`.
- One application of the merge is a fixed point iff no number is spelled in two ways:
  `VersionOrder.OneApplicationIff`, `Version.OneApplicationIsNotEnough`; and it is associative iff
  `VersionOrder.MergeAssociatesIff` says so.
- The int32 change counter can answer "no change" from 2^31 changes on: `FanOut.IsChangedExactly`,
  `FanOut.IsChangedOverflows`.
- A nil `spec.replicas` is checked for and then dereferenced: `AppSetStatus.BuildAppsetStatus`.
- A failing attempt to set the last-applied annotation can lose it or leave an empty one:
  each takes a library failure: `Annotation.FailureLeavesAnnotationsIff`, `Annotation.MarshalFailureLosesIt`,
  `Annotation.PruneFailureLeavesEmpty`, `Annotation.ZipFailureEmptiesIt`.
- The requeue delay is never honoured: `Worker.Reconcile` always answers 0.

## Model

| member | source | states |
|---|---|---|
| FanOut.NoSendOnClosedChannel | controllers/appset/utils.go:114-141 | in every interleaving, nested or not: no panic, no blocked sender faces a closed channel, and main reads only after both collectors and all workers are finished |
| FanOut.StepDecreasesMeasure | controllers/appset/utils.go:107-181 | every step of any goroutine strictly decreases a bounded measure |
| FanOut.RunsAreBounded | controllers/appset/utils.go:107-181 | every schedule ends within nine steps per cluster plus nine |
| FanOut.NoDeadlock | controllers/appset/step.go:299-344 | in every reachable state before main returns some goroutine can move |
| FanOut.FanOutRefinesSequentialLoop | controllers/appset/utils.go:107-181 | the errors and the collected items are permutations of those of a sequential loop over the handlers, and the counter is the same |
| FanOut.EveryoneIsHeardOnce | controllers/appset/utils.go:114-136 | when main returns, exactly the handlers with an error, and in a nested fan-out those with an item, were received from, each once |
| FanOut.ReceivedListsExist | controllers/appset/step.go:305-331 | every rendezvous had a text or an item to hand over, so the collected lists exist in every reachable state |
| FanOut.IsChangedExactly | controllers/appset/utils.go:133-141 | isChanged is true exactly when the number of counted changes modulo 2^32 lies in 1 .. 2^31 - 1 |
| FanOut.IsChangedIffSomeChange | controllers/appset/utils.go:166-180 | below 2^31 clusters: isChanged iff some handler reported a change (for the specified clusters: without an error) |
| FanOut.IsChangedOverflows | controllers/appset/utils.go:109-141 | the bound is needed: 2^31 clusters that all report a change have a run that returns with a counter of at most zero |
| FanOut.EveryOrderHappens | controllers/appset/utils.go:114-136 | every order of the clusters is the arrival order of some interleaving |
| Version.MergeVersion | controllers/appset/utils.go:75-105 | the loops compute the merge specified by token set, numeric sort and print, in whatever order the map is visited |
| Version.SortIntsAscends | controllers/appset/utils.go:97 | the sort's result is ascending |
| Version.SortIntsPermutes | controllers/appset/utils.go:97 | and a permutation of its argument |
| Version.AtoiItoa | controllers/appset/utils.go:94-101 | parsing a printed int64 gives it back, through strconv's overflow and syntax rules |
| Version.TokenSetRender | controllers/appset/utils.go:76-104 | reading a printed list finds exactly the tokens of its numbers: split undoes print |
| Version.MergedNumbers | controllers/appset/utils.go:75-105 | for all strings: the merge mentions exactly the numbers of both arguments, and is canonical |
| Version.MergeIsUnion | controllers/appset/utils.go:75-105 | on canonical versions the merge prints the union of the numbers |
| Version.PrintedReadsBack | controllers/appset/utils.go:99-104 | printing a set of machine integers and reading it back gives the set |
| Version.MergePrinted | controllers/appset/utils.go:75-105 | merge(print A, print B) is print(A + B) for all finite sets of machine integers |
| Version.MergeCommutes | controllers/appset/utils.go:75-105 | commutative for all strings |
| VersionOrder.MergeAssociatesIff | controllers/appset/utils.go:75-105 | for all strings: associative iff the outer arguments, each next to the canonical spellings of the rest, spell every number equally often |
| Version.MergeAssociates | controllers/appset/utils.go:75-105 | in particular as soon as the outer arguments are canonical |
| Version.MergeUnitIdempotent | controllers/appset/utils.go:75-105 | "" is a two-sided unit and the merge is idempotent on printed versions |
| Version.MergeStabilises | controllers/appset/utils.go:75-105 | for every string two applications reach a fixed point: its numbers, strictly ascending, each once |
| VersionOrder.OneApplicationIff | controllers/appset/utils.go:75-105 | for all strings: one merge already yields a fixed point iff the two arguments together spell no number in two ways |
| Version.OneApplicationIsNotEnough | controllers/appset/utils.go:85-104 | a concrete pair of strings for which it does not |
| Version.MergeAllIsUnion | controllers/appset/step.go:242-243 | accumulating canonical versions prints the union of all their numbers |
| VersionText.AtoiAppends | controllers/appset/utils.go:94 | a token's digits are read in base ten: one more digit means ten times as much plus that digit, up to the largest int64 |
| VersionText.AtoiSigns | controllers/appset/utils.go:94 | a plus or minus sign in front is read, and clamped at the smallest int64 |
| VersionText.AtoiOfOther | controllers/appset/utils.go:94 | a token with any other character counts as 0, unless the digits before it overflow 64 bits first |
| VersionText.AtoiOfNothing | controllers/appset/utils.go:94 | nothing at all, and a sign alone, count as 0 too |
| VersionText.ValueSkipsV | controllers/appset/utils.go:94 | leading v's do not count |
| VersionText.ItoaAppends | controllers/appset/utils.go:101 | numbers are printed digit by digit, without leading zeros, a negative one after a minus sign |
| VersionText.RenderAppends | controllers/appset/utils.go:99-104 | the result is a v and the number for each entry, with slashes in between only |
| VersionText.SpaceDoesNotMatter | controllers/appset/utils.go:76-77 | white space around a version changes nothing |
| VersionText.SlashesDoNotMatter | controllers/appset/utils.go:79-90 | nor do empty pieces at the ends |
| VersionOrder.SameSortedIff | controllers/appset/utils.go:92-97 | two token sets print alike iff every number is spelled equally often in both |
| VersionOrder.OrderIndependentIff | controllers/appset/step.go:242-243 | for arbitrary strings the accumulated version is independent of the arrival order iff every choice of the last version spells each number equally often |
| VersionOrder.OrderShows | controllers/appset/step.go:242-243 | two concrete versions whose two orders print differently |
| PodVersions.RemoveDuplicatedVersion | controllers/advdeployment/utils.go:334-348 | the loop computes the joined lexicographic sort of the first occurrences |
| PodVersions.ListedVersions | controllers/advdeployment/utils.go:334-348 | the listed texts are strictly ascending and exactly the non-empty versions |
| PodVersions.WorkerVersionOfSame | controllers/advdeployment/utils.go:334-348 | the text depends only on which non-empty versions there are, not on order or repetition |
| PodVersions.WorkerVersionOfSorted | controllers/advdeployment/step.go:472-476 | so sorting the pod sets by name first does not change it |
| PodVersions.SortPodsPermutes | controllers/advdeployment/step.go:472-474 | the sorted pod sets are a permutation of the listed ones |
| PodVersions.SortPodsSorts | controllers/advdeployment/step.go:472-474 | and in ascending order of their names |
| PodVersions.AtMostIff | controllers/advdeployment/step.go:472-474 | in that order a prefix comes first and otherwise the first different character decides |
| PodVersions.JoinAppends | controllers/advdeployment/utils.go:334-348 | the listed versions are joined with slashes |
| PodVersions.WorkerVersionIsCanonical | controllers/advdeployment/utils.go:334-348 | for printed versions the worker's text is canonical and has exactly their numbers, although it is ordered as text |
| PodVersions.AppSetVersionIsAllPodVersions | controllers/appset/step.go:242-243 | from pod sets to AppSet: the version is the ascending print of all pod set versions of all clusters, each once |
| AppSetStatus.BuildAppsetStatus | controllers/appset/step.go:229-297 | the loop computes the specified status; the generation counts as observed iff every AdvDeployment's generation is, else the one before it (wrapped) is reported; nil replicas fail |
| AppSetStatus.StatusInFields | controllers/appset/step.go:242-296 | totals are the sums of the AdvDeployments' own figures modulo 2^32, their versions are merged in order, each gives one cluster entry with its figures, and Running needs all of them observed and Running, the available total equal to the replicas and none unavailable |
| AppSetStatus.StatusPermutes | controllers/appset/step.go:242-296 | statuses of permuted lists agree in everything but version and order of clusters |
| AppSetStatus.StatusIsScheduleIndependent | controllers/appset/step.go:229-344 | two interleavings of the same fan-out give the same status and the same multiset of clusters, and for canonical versions the same version |
| AppSetStatus.VersionCanDependOnSchedule | controllers/appset/step.go:242-343 | for other versions two interleavings of one fan-out, both reachable, report different versions |
| EndToEnd.TotalsOfTotals | controllers/appset/step.go:252-254 | adding up what clusters report is, modulo 2^32, the sum over every owned workload, whatever overflowed on the way |
| EndToEnd.RunningIff | controllers/appset/step.go:242-285 | over the collected clusters: Running iff every AdvDeployment is observed, every cluster's workloads have settled and all available replicas add up to spec.replicas modulo 2^32 |
| EndToEnd.RunningMeansEveryReplica | controllers/advdeployment/step.go:345-489 | a Running AppSet has observed its generation, and over all owned workloads of the collected clusters available, desired and updated replicas add up to spec.replicas, none unavailable, every generation observed |
| EndToEnd.StoredIsReported | controllers/advdeployment/step.go:345-564 | reading what a worker run stored or found stored, the master gets that run's status, figures and version |
| EndToEnd.VersionIsOfAllOwned | controllers/advdeployment/step.go:360-476 | the AppSet's version is the ascending print of the versions of all owned workloads of the collected clusters, each once |
| Collected.StatusInOrder | controllers/appset/step.go:229-344 | in every interleaving the status is, up to the order of the clusters and versions that are not canonical, that of the answers taken in the order of the spec |
| Collected.RunningIffAnsweredRun | controllers/appset/step.go:229-344 | in every interleaving: Running iff the clusters of the spec that answered are observed and settled and have the replicas; those that failed or lack the AdvDeployment have no say |
| Collected.WholeSpecRunsIff | controllers/appset/step.go:311-343 | the whole spec runs iff the status is Running and every cluster answered with an AdvDeployment |
| Collected.RunningMeansWholeSpec | controllers/appset/step.go:229-344 | if every cluster answered, the totals of a Running status are those of every owned workload in every cluster of the spec |
| Collected.DroppedClusterIsInvisible | controllers/appset/step.go:311-338 | a run in which one of two clusters does not answer and the AppSet is Running with its generation observed |
| Collected.VersionOfAnswers | controllers/appset/step.go:229-344 | in every interleaving the version is the ascending print of the versions of all owned workloads of the clusters that answered, each once |
| Collected.RunsReport | controllers/advdeployment/step.go:505-565 | answers that are what worker runs stored satisfy all that these results ask of the answers |
| Collected.WholeSpecRunsFromWorkers | controllers/appset/step.go:229-344 | from worker runs through the fan-out: the workloads the runs counted make the whole spec run iff the AppSet is Running and every cluster answered |
| ZoneList.GetUnexpectedSync | controllers/appset/utils.go:209-281 | the three loops list exactly the removable clusters, in order; an unknown expected zone gives an empty list |
| ZoneList.GetUnexpected | controllers/appset/utils.go:183-207 | the plain list: the clusters outside the spec that hold the AdvDeployment |
| ZoneList.ListedIff | controllers/appset/utils.go:209-281 | in the fields of spec and views: a cluster is listed iff every spec entry has a zone, it is outside the spec, and its AdvDeployment has a zone label that nobody wants or that every other cluster's AdvDeployment in it has with generation observed and Running |
| ZoneList.ListedInOrder | controllers/appset/utils.go:251-280 | the list consists of those clusters in the order of the clients, one entry for each view |
| ZoneList.InstallingElsewhereKeeps | controllers/appset/utils.go:264-278 | an AdvDeployment elsewhere in the wanted zone that is not observed or not Running keeps a cluster off the list |
| ZoneList.UnexpectedIff | controllers/appset/utils.go:183-207 | the plain list names a cluster iff it answered with an AdvDeployment and is outside the spec |
| ZoneList.OldClusterIsListed | controllers/appset/utils.go:209-281 | when the spec moves a zone, the old cluster is listed exactly as soon as the new one is observed and Running |
| ZoneList.Scan | controllers/appset/utils.go:264-274 | the inner loop finds whether the zone has another member and how many of those are installing |
| ZoneList.RemovableByScan | controllers/appset/utils.go:252-279 | what the scan finds decides exactly whether the cluster is removable |
| ZoneList.NoneBlocks | controllers/appset/utils.go:264-276 | that count is zero iff no other member of the zone is installing |
| ZoneList.RemovableNamesExactly | controllers/appset/utils.go:251-280 | a cluster is listed iff some remembered situation of it is removable |
| ZoneList.NeverExpected | controllers/appset/utils.go:201-257 | neither list names a cluster of the spec |
| ZoneList.OnePassRule | controllers/appset/utils.go:252-279 | the quadratic scan equals the one-pass rule: zone not wanted, or its installing count less the own contribution is zero |
| ZoneList.TwoInstallingBlockTheZone | controllers/appset/utils.go:264-278 | two installing members of a wanted zone block every removal there |
| ZoneList.ZoneSurvivesIff | controllers/appset/utils.go:251-280 | a running wanted zone keeps a running member after one list iff it has an installing or an expected member |
| ZoneList.LastMemberOfAZoneCanBeListed | controllers/appset/utils.go:276-278 | the failing case on a concrete input |
| Migration.NeverDeletesExpected | controllers/appset/step.go:415-454 | in every run of apply, read, delete and environment steps no AdvDeployment of an expected cluster is deleted by the step |
| Migration.DeletionWasRead | controllers/appset/utils.go:227-249 | every zone-aware deletion goes back to an AdvDeployment with a clearable zone label read in the same pass, in a cluster outside the spec |
| Migration.DeletesInWantedZoneOnlyWhenOthersRun | controllers/appset/utils.go:209-281 | in every run, whatever other actors do: a zone-aware deletion in a wanted zone implies that every client was asked, and every other AdvDeployment labelled with the zone in a cluster that answered had its generation observed and status Running at that moment, which lies within the pass |
| Migration.DeletesInWantedZoneOnlyWhenExpectedRun | controllers/appset/utils.go:313-319 | while only the apply step labels the spec's clusters, this covers every cluster the spec puts in the zone |
| Migration.StepOnWorld | controllers/appset/step.go:415-454 | the only changes of the world by the master: an unobserved, labelled AdvDeployment is created in a spec cluster without one, or exactly one is deleted, and recorded |
| Migration.DeletionHappened | controllers/appset/step.go:434-454 | every recorded deletion took the AdvDeployment of its cluster, and nothing else, out of the world |
| Migration.OldClusterIsCleared | controllers/appset/step.go:415-454 | for every zone and pair of clusters a run in which the spec's move is completed: either path deletes the old cluster's AdvDeployment |
| Finalizer.RemoveSliceString | pkg/utils/common.go:10-22 | the loop removes exactly the occurrences of the finalizer |
| Finalizer.RemoveRemoves | pkg/utils/common.go:10-22 | nothing of it is left and every other entry stays |
| Finalizer.RemoveConcat | pkg/utils/common.go:10-22 | the order and repetition of the other entries are kept |
| Finalizer.AtMostOneApplyWhileDeleting | controllers/appset/step.go:25-104 | in every run, once the stored AppSet is under deletion or gone, the spec is applied at most once more until it is created anew, and only if the round at hand can: it had read the AppSet with the master's finalizer and not under deletion |
| Finalizer.AppliesLaterIff | controllers/appset/step.go:25-127 | from such a state some continuation of the run applies the spec iff the round at hand can |
| Finalizer.ApplyAtOnce | controllers/appset/step.go:107-127 | that apply can follow at once, in every connected cluster |
| Finalizer.NothingIsRecreatedWhileDeleting | controllers/appset/step.go:25-104 | so nothing is created any more from a moment on at which the round at hand cannot apply |
| Finalizer.OldSnapshotCreates | controllers/appset/step.go:25-39 | a concrete run in which a round that read the AppSet before its deletion creates the AdvDeployment after it |
| Finalizer.NoOrphansWithoutErrors | controllers/appset/step.go:25-105 | in every state of every run without delete errors, an AppSet gone or without its finalizer leaves no connected cluster holding an AdvDeployment |
| Finalizer.RemovedOnlyAfterQuietRound | controllers/appset/step.go:41-66 | the finalizer leaves only at the end of a round in which no cluster's delete succeeded |
| Finalizer.RemovalOrphansIff | controllers/appset/step.go:41-66 | in every run, whenever the finalizer leaves the stored AppSet: what the clusters held at that round's fan-out is left behind, and it is something iff the delete in some holding cluster failed |
| Finalizer.OrphansAreCleared | controllers/appset/reconcile.go:122-126 | in every run: the round that finds the AppSet gone leaves the AdvDeployment exactly in the clusters whose delete failed, so nowhere if none failed |
| Finalizer.OrphanRoundClears | controllers/appset/step.go:41-66 | from any state with the AppSet gone such a round can follow, and clears the clusters |
| Finalizer.OrphanIsClearedNext | controllers/appset/reconcile.go:122-126 | the concrete run goes on: one more round deletes the orphan |
| Finalizer.DeleteRoundLeaves | controllers/appset/step.go:41-86 | any delete fan-out leaves the AdvDeployment exactly where it was held and the delete failed |
| Finalizer.MasterKeepsOtherFinalizers | controllers/appset/step.go:41-105 | the master appends its own finalizer to an AppSet not under deletion or takes only its own from one that is, which disappears when no other is left |
| Finalizer.RoundRemovesIff | controllers/appset/step.go:41-66 | an undisturbed round removes the finalizer iff no delete succeeded |
| Finalizer.FailedDeleteOrphans | controllers/appset/step.go:43-62 | a concrete run, from the AppSet's creation on, that orphans an AdvDeployment |
| Finalizer.TwoRoundsSuffice | controllers/appset/step.go:41-66 | two undisturbed error-free rounds clear every connected cluster and remove the finalizer |
| Finalizer.ChangedIsTheFanOutAnswer | controllers/appset/utils.go:107-142 | the round's isChanged is what any interleaving of the fan-out answers: some cluster's delete succeeded |
| Prune.DeleteNullInObj | pkg/resource/patch/deletenull.go:57-87 | the map loop, in any key order, computes one pass over an object |
| Prune.DeleteNullInSlice | pkg/resource/patch/deletenull.go:89-113 | the slice loop computes one pass over an array, splicing arrays inside it |
| Prune.OnePass | pkg/resource/patch/deletenull_test.go:101-190 | the repository's own examples: what goes, what stays empty, what is spliced |
| Prune.PassShrinksOrIsDone | pkg/resource/patch/deletenull.go:57-113 | one pass leaves a tree unchanged iff it is normal, and otherwise strictly shrinks it |
| PruneLimit.NormIsNormal | pkg/resource/patch/deletenull.go:57-113 | the bottom-up reference pruning always yields a normal tree |
| PruneLimit.ObjKeepsNorm | pkg/resource/patch/deletenull.go:57-113 | one pass does not change the limit |
| PruneLimit.PassesExactly | pkg/resource/patch/deletenull.go:57-113 | exactly when n passes reach a normal tree |
| PruneLimit.PassesConverge | pkg/resource/patch/deletenull.go:57-113 | as many passes as the nesting is deep reach the bottom-up limit, a fixed point |
| PruneLimit.EveryTreeHasDepth | pkg/resource/patch/deletenull.go:57-113 | every tree has such a depth, so every tree converges |
| PruneLimit.DepthBoundIsTight | pkg/resource/patch/deletenull_test.go:180-190 | for every depth some tree needs that many passes: a pass can leave a fresh empty object behind |
| PruneLimit.PassKeepsContent | pkg/resource/patch/deletenull.go:57-113 | at every key path one pass keeps exactly the numbers, booleans and non-empty strings, with multiplicity |
| PruneLimit.SliceKeepsOrder | pkg/resource/patch/deletenull.go:89-113 | the pruned array lists the images of the flattened elements in their order |
| PruneLimit.PruneCommutesWithStatusRemoval | pkg/resource/patch/deletenull.go:165-177 | pruning any number of times commutes with removing the status |
| JsonText.DeleteNullInJson | pkg/resource/patch/deletenull.go:41-55 | the rewritten text decodes to the pruned object; both library failures, and a JSON null becoming an empty object |
| JsonText.DeleteStatusField | pkg/resource/patch/deletenull.go:165-177 | the rewritten text decodes to the object without its status; both library failures, and a JSON null staying null |
| JsonText.TextRewritesCommute | pkg/resource/patch/deletenull.go:41-177 | both rewrites commute byte for byte whenever both can be done |
| Context.WithValue | pkg/context/context.go:25-34 | writes into an existing wrapper in place, so callers that drop the result still see it; only another context gets a new wrapper |
| Worker.StepApplyResources | controllers/advdeployment/step.go:65-130 | it fails iff a rendering failed or some object is unsupported or cannot be converted or applied; the stop flag, the owner list and the other slots after the step, as decided by the first object that ends the loop; shadowed and unassigned errors leave the flag alone |
| Worker.ApplyObjects | controllers/advdeployment/step.go:96-123 | the object loop, with the autoscaler error that lingers until the next conversion |
| Worker.CollectObjects | controllers/advdeployment/step.go:78-85 | all rendered objects in order, or nothing as soon as one rendering fails |
| Worker.IsUnusedObject | controllers/advdeployment/utils.go:350-363 | nothing is unused against an empty owner list; else the name formatted as a Deployment is looked up |
| Worker.LoopWorkloads | controllers/advdeployment/step.go:345-432 | totals, generations and pod sets of the owned workloads; every unused entry points at the one loop variable, which holds the last workload |
| Worker.DealAggrStatus | controllers/advdeployment/step.go:471-503 | the status put into the context, with sorted pod sets and their version text, and a delete per unused entry unless more is desired than available |
| Worker.StepRecalculateStatus | controllers/advdeployment/step.go:225-267 | which list decides the status, the status in the context and the deletes issued |
| Worker.RunSteps | controllers/advdeployment/reconcile.go:127-140 | the step loop issues exactly the deletes its inputs determine and answers neither requeue nor delay; once the status is reached there is no error only if it was written or found stored, and one only if no list was chosen or the write was hindered; undisturbed, exactly the computed status is stored |
| Worker.Reconcile | controllers/advdeployment/reconcile.go:114-141 | a whole run: an undisturbed first read finds the object; nothing is done without it, which is no error iff it was not found, and then it was gone at some state since the horizon; a run that reaches the status stores exactly the computed one when undisturbed, and otherwise fails only if no list was chosen or the write was hindered by five refusals, a fault or a deletion; one that stops before leaves the stored object alone |
| Worker.ObservedAheadOfAppliedIff | controllers/advdeployment/step.go:521-548 | a run leaves as observed a generation later than the one it applied iff the object's generation moved on between its read and its status step (by two when a write holds one back) |
| WorkerSafety.OwnersIffClean | controllers/advdeployment/step.go:96-129 | the owner list reaches the next step iff every object was applied without error and change |
| WorkerSafety.ReachesStatusIff | controllers/advdeployment/step.go:65-130 | in the inputs: a run reaches the status iff it is live and well typed and some rendering failed, or the first object that does not go through is unsupported with no autoscaler error lingering, or all go through unchanged with none lingering |
| WorkerSafety.ObjectsInOrder | controllers/advdeployment/step.go:78-85 | the objects are applied rendering by rendering, each in its own order |
| WorkerSafety.OwnedExactly | controllers/advdeployment/step.go:351-359 | the owned workloads are, with multiplicity, the listed ones whose name is on the owner list, or all while it is empty |
| WorkerSafety.StatusFigures | controllers/advdeployment/step.go:360-388 | desired, available and unavailable of the status are the sums of the owned workloads' own figures modulo 2^32 |
| WorkerSafety.StatusSettles | controllers/advdeployment/step.go:484-489 | it is Running iff as many are available and updated as desired, none unavailable and every generation observed |
| WorkerSafety.StatusPodSets | controllers/advdeployment/step.go:360-476 | its pod sets are one per owned workload with that one's figures, ordered by name, and its version is made of theirs |
| WorkerSafety.DeletesExactlyWhen | controllers/advdeployment/step.go:78-502 | a run deletes something iff it is live and well typed, everything rendered and was applied without error and change, the owner list is not empty, some listed workload is unused and Desired <= Available |
| WorkerSafety.DeletesOwnedIff | controllers/advdeployment/step.go:352-358 | an owned workload is deleted iff the last listed one is owned |
| WorkerSafety.DeletesExactlyUnusedIff | controllers/advdeployment/step.go:495-496 | exactly the unused ones are deleted iff the last one is the only unused one |
| WorkerSafety.AnOwnedDeploymentCanBeDeleted | controllers/advdeployment/step.go:352-358 | a concrete list for which an owned Deployment is deleted |
| WorkerSafety.FormattedNameInjective | controllers/advdeployment/utils.go:156-158 | formatted names of plain kinds and namespaces determine kind, namespace and name |
| WorkerSafety.UnusedIffNotRendered | controllers/advdeployment/utils.go:350-363 | against a non-empty owner list a workload is unused iff no Deployment was rendered with its namespace and name |
| WorkerSafety.StatefulSetsAreNeverOwned | controllers/advdeployment/step.go:396-402 | a clean run of a chart without Deployments reports Running with zero replicas and deletes the last StatefulSet once for each of them |
| WorkerSafety.StatusNeedsTwoWorkloads | controllers/advdeployment/step.go:234-266 | a run settles on a status iff it listed two Deployments or, failing that, two StatefulSets, and from which list |
| WorkerSafety.SingleWorkloadHasNoStatus | controllers/advdeployment/step.go:234-266 | a chart with at most one of each never has a status stored by a run, nor a delete issued |
| StatusWrite.ApiServer.Get | controllers/advdeployment/step.go:521-528 | a read returns a stored state no older than the horizon, or an error: not found only if some state since the horizon is gone, another one iff there was a fault |
| StatusWrite.ApiServer.StatusUpdate | controllers/advdeployment/step.go:547 | a status write is refused unless the stored version is the one it is based on, and keeps spec and generation; its reply can get lost |
| StatusWrite.Attempt | controllers/advdeployment/step.go:535-563 | one attempt: success implies the status was written or found stored; a conflict leaves the object re-read and nothing written |
| StatusWrite.RetryOnConflict | controllers/advdeployment/step.go:535-564 | up to five attempts: at most one write, on the version last read; it fails only after five refusals, a fault or a deletion |
| StatusWrite.WriteStatus | controllers/advdeployment/step.go:521-564 | under any interference: nil implies the last call wrote the computed status with the observed generation due to it, or found it stored with its generation observed, at a state since the horizon; at most one write, on the version last read, never touching the spec; undisturbed, exactly the computed status is stored; it fails only after five refusals, a fault or a deletion, and never when the last read shows the status stored |
| StatusWrite.StoredShows | controllers/advdeployment/step.go:530-560 | what counts as stored: a state since the horizon with the computed status, its generation observed or, after a write that holds it back, the one before |
| StatusWrite.AheadOfAppliedIff | controllers/advdeployment/step.go:541-545 | the stored observed generation exceeds an applied one iff the stored object's generation does, by two when a write holds one back |
| StatusWrite.EditIsMarkedObserved | controllers/advdeployment/step.go:521-548 | a spec edited between the run's read and its status write is marked observed without having been applied |
| StatusWrite.StepUpdateStatus | controllers/advdeployment/step.go:505-565 | the same for the step, with the stop flag set on every failure except a missing status |
| DeepCopy.PodSetStatusInfo.DeepCopyInto | api/v1beta1/zz_generated.deepcopy.go:644-681 | the copy has the same values, all seven cells are fresh, and no two are shared even where the original shares them |
| DeepCopy.CopyInfoPointers | api/v1beta1/zz_generated.deepcopy.go:66-76 | the copied pod sets are fresh, pairwise disjoint and equal in value; nil stays nil |
| DeepCopy.AggrStatus.DeepCopyInto | api/v1beta1/zz_generated.deepcopy.go:59-77 | the copy equals the original, which is not modified; slices, pod sets and cells are all fresh and nothing is shared |
| DeepCopySpec.ChartSpec.DeepCopyInto | api/v1beta1/zz_generated.deepcopy.go:458-474 | the pointer to the byte slice, the slice behind it and the URL are copied to fresh, different places; a nil slice behind a pointer stays nil |
| DeepCopySpec.PodSet.DeepCopyInto | api/v1beta1/zz_generated.deepcopy.go:607-631 | the copy equals the original down to the chart's bytes and the map, and its seven places are fresh and different |
| DeepCopySpec.ShapesExist | api/v1beta1/common.go:151-183 | every slice of pod sets has the shapes the copies are described by |
| DeepCopySpec.Topology.DeepCopyInto | api/v1beta1/zz_generated.deepcopy.go:832-846 | fresh, pairwise disjoint pod sets equal to the original's, nil ones nil; the original is not modified |
| DeepCopySpec.TargetCluster.DeepCopyInto | api/v1beta1/zz_generated.deepcopy.go:799-819 | the same with a fresh map that no pod set reaches |
| Base64.DecodeEncode | pkg/resource/patch/annotation.go:127-165 | decoding undoes encoding for all byte sequences (RFC 4648 section 4) |
| Base64.Alphabet | pkg/resource/patch/annotation.go:127 | the alphabet of section 4 of RFC 4648 |
| Base64.TestVectors | pkg/resource/patch/annotation.go:127 | test vectors of section 10 of RFC 4648 |
| Base64.LongTestVector | pkg/resource/patch/annotation.go:127 | the longest of them |
| Base64.DecodesIff | pkg/resource/patch/annotation.go:165 | a text without line breaks decodes iff it consists of quads of the alphabet with padding at the end only |
| Base64.LineBreakSkipped | pkg/resource/patch/annotation.go:165 | a line break anywhere is skipped |
| Annotation.GetModifiedConfiguration | pkg/resource/patch/annotation.go:51-103 | the serialisation leaves the key out; the key is put back, empty if it was missing, except when marshalling fails |
| Annotation.SetOriginalConfiguration | pkg/resource/patch/annotation.go:130-149 | the annotation after success, after a zip failure and for an empty text |
| Annotation.SetLastAppliedAnnotation | pkg/resource/patch/annotation.go:34-45 | answer and annotations in every success and failure case |
| Annotation.GetOriginalConfiguration | pkg/resource/patch/annotation.go:151-170 | reading: nothing without the key, the text itself unless it decodes to an archive, and the archive's content or an error |
| Annotation.SettingSucceedsIff | pkg/resource/patch/annotation.go:34-45 | setting succeeds iff the object without the annotation, its pruned form and the archive can be written; the annotation is then the encoded archive |
| Annotation.DocumentShows | pkg/resource/patch/annotation.go:51-103 | the serialised document shows every other annotation and the rest of the object |
| Annotation.OthersSurvive | pkg/resource/patch/annotation.go:34-103 | every other annotation survives, also when setting fails half way |
| Annotation.SettingIsIdempotent | pkg/resource/patch/annotation.go:34-103 | setting it again changes nothing and answers the same |
| Annotation.ReadsBackPruned | pkg/resource/patch/annotation.go:151-190 | once set, reading gives exactly the pruned serialisation of the object without the annotation |
| Annotation.FailureLeavesAnnotationsIff | pkg/resource/patch/annotation.go:34-149 | exactly when a failing call leaves the annotations as they were |
| Annotation.MarshalFailureLosesIt | pkg/resource/patch/annotation.go:67-80 | a failing call, the object not being marshalled, that loses the annotation |
| Annotation.PruneFailureLeavesEmpty | pkg/resource/patch/annotation.go:40-43 | a failing call, the pruned form not being marshalled, that leaves an empty annotation where there was none |
| Annotation.ZipFailureEmptiesIt | pkg/resource/patch/annotation.go:144-147 | a failing call, the archive not being written, that overwrites the annotation with an empty text |
| K8sObject.MergeMap | pkg/utils/common.go:42-53 | the two map loops compute the override merge |
| K8sObject.K8sObj.JSON | pkg/helm/objects.go:123-137 | the cached text, or else what the library writes; an answer reads as the current object, and caches stay coherent |
| K8sObject.K8sObj.YAML | pkg/helm/objects.go:140-156 | likewise through the JSON cache, whenever the library converts it |
| K8sObject.K8sObj.AddLabels | pkg/helm/objects.go:168-172 | labels are merged over, caches emptied |
| K8sObject.Run | pkg/helm/objects.go:123-172 | after any sequence of calls all caches read as the current object, and every answer did so at its time; a question goes unanswered only when the library fails for it |
| K8sObject.AfterIsMerge | pkg/helm/objects.go:168-172 | the labels are the left-to-right merge of all added maps, the rest is untouched |
| K8sObject.LastAddedWins | pkg/utils/common.go:42-53 | a label is found as last added, or as it was at first |
| K8sObject.OutsideWrite | pkg/helm/objects.go:97-100 | after a write through the raw object the caches are coherent iff nothing was cached or nothing changed |

## Left out

- Worker.Reconcile: resource.Reconcile, autoscaler and list calls are arbitrary answers, and what the spec read makes of them is an input.
- Worker.LoopWorkloads: the values behind the aliased Update/Current/Ready pointers; the version is read off the container image elsewhere; setControllerReference and its writes.
- Worker.DealAggrStatus: sort.Slice is taken as a stable sort by name.
- Worker.StepRecalculateStatus: the Job branch tests the StatefulSet count again and is never taken; checkServiceOwner is not modelled.
- StatusWrite.WriteStatus: the comparison does not look at the pod sets' aliased pointers; timestamps, conditions and back-off delays are not modelled; client-go's retry is taken as five attempts that repeat on conflicts only.
- Migration.NeverDeletesExpected: updates of existing AdvDeployments by the apply step are environment steps; the spec is fixed for the run. Which of the two lists a pass uses is free instead of following from a status text and an annotation.
- Migration.DeletesInWantedZoneOnlyWhenExpectedRun: other actors neither create nor relabel AdvDeployments in clusters of the spec; Migration.DeletesInWantedZoneOnlyWhenOthersRun needs no such condition. Both speak of the moment each client was asked, since reads and deletes are separate calls, and of the clients that answered.
- Finalizer.NoOrphansWithoutErrors: the connected set is fixed and reads of the AppSet are fresh; users may set but never take away the master's finalizer; AdvDeployments come and go only through the master's own steps.
- Finalizer.RemovalOrphansIff: the same assumptions; nobody else deletes an AdvDeployment between the fan-out and the removal.
- AppSetStatus.BuildAppsetStatus: warning events are not collected (regular expressions and aliased event pointers).
- EndToEnd.RunningMeansEveryReplica: equality is modulo 2^32, as the int32 totals are; clusters that did not answer are the subject of Collected.
- DeepCopySpec.PodSet.DeepCopyInto: the deep copy of a node selector term is foreign code; its value is one number. The remaining generated copies repeat these patterns.
- Annotation.GetModifiedConfiguration: the variant that embeds the annotation (`annotate` true) has no caller; other holders of the same annotation map are not tracked.
- K8sObject.K8sObj.JSON: the cached text is handed out by reference; texts are values here. A nil object cannot come out of the constructor.
- Context: the string getter, and keys outside the array.
- pkg/resource/resource.go and strategic merge patches: the patch mathematics is not part of this repository.
- applyAdvdeployment's update: it writes a fresh object without resource version, so nothing useful holds of its success.
- Helm rendering, charts, HPA metrics, webhooks, servers, commands, flags and logging.
- The difference between nil and empty slices and maps, except where a nil is tested for.
