# A verified model of the API server state machine and its controllers

The repository reduces a Kubernetes API server to a locked map of objects and runs controllers against it. This
project models that state machine and the controllers in Dafny and proves what their code is for: which histories the
store can have, which single operation a retrying transaction amounts to, where each controller's syncs end up, and
what every intermediate state is allowed to look like.

| files | component |
|---|---|
| `Wrappers`, `Collections`, `Decimal`, `SortedNames` | options and results, permutations and set sizes, Go's decimal text, byte order on names |
| `ApiObjects`, `Finalizers`, `ApiStore`, `ApiState` | the object store: operations as pure steps, and as the class whose methods do exactly those steps |
| `ApiRuns`, `ApiTx`, `ApiOutcomes` | runs of the store under any interleaving, the retry loops against interference, and each operation's result on the stored fields |
| `PodNames`, `StatefulPods`, `StatefulReconcile`, `StatefulConvergence`, `StatefulOutcomes` | the StatefulSet controller |
| `ReplicaSets`, `ReplicaSetOutcomes`, `Deployments`, `DeploymentOutcomes` | the ReplicaSet and Deployment controllers |
| `Aggregation`, `AggregationFixpoint`, `AggregationOutcomes` | ClusterRole aggregation |
| `Iam`, `IamReconcile` | the local IAM model and its reconciler |
| `Views`, `ViewKinds`, `ViewOutcomes` | the view generator's ownership and order traversal, and its two recursive type classifications |

Stateful code is a class or a method with loops, proved against a specification function or a predicate on the old and
new state; the theorems about runs, fixpoints and order are lemmas about those specifications. A locked method is one
atomic step. Each controller talks to a small API class of its own. A script held by that class decides which requests
fail on the way. Safety promises hold for every script, progress promises hold whenever the error returned is nil, and
`Faultless()` scripts return nil.

The `*Outcomes` modules and the end of `Finalizers` say what the definitions those results go through come to: they
state the results again on the fields of requests, objects, Pods, rules and types, without the predicates the
operations share with their specifications. `ApiOutcomes` does so for every operation of the store, and the others for
the controllers' end results.

Where code and comment differ, the model follows the code:

* A delete that shortens an elapsed grace period clamps a local period to one second
  (`kubernetes_model/apimodel/api_model.go:1460-1468`), but the period stored is the one the caller asked for
  (`kubernetes_model/apimodel/api_model.go:1622-1636`).
* The comment on `patch` speaks of UID preconditions (`kubernetes_model/apimodel/patch.go:23-27`); the code skips the
  UID precondition and keeps only the resource-version one (`kubernetes_model/apimodel/patch.go:65-68`).
* `deleteTx` checks a UID precondition on the object it read before it validates the options
  (`kubernetes_model/apimodel/transaction.go:28-59`), while `delete` validates the options first.
  `ApiTx.DeleteTxRefines` states exactly when this difference shows, in terms of the call and the object it reads
  first, and `ApiTx.DeleteTxReportsUidFirst` is an instance of it.
* `findNewReplicaSet` takes the first match in lister order, as its comment admits
  (`controllers/deployment/deployment.go:51-58`). `Deployments.SecondSyncQuietIff` states exactly when repeated syncs
  are quiet in spite of that, and `Deployments.FlapInstance` is a world in which they are not.

Upstream Kubernetes functions are not part of this repository. They enter as the function values of
`ApiObjects.Hooks`, and `ApiObjects.HooksOk` is all that is assumed of them: a successful admission of an update keeps
name and namespace, takes the UID and the deletion fields from the existing object and never reports a conflict;
admission of a create keeps name, namespace, UID and deletion fields; a Pod's grace period is not negative. Namespace
matching, the wiping of system fields and the delete-during-update test are written out. Random ids and names are
parameters required to be unused, as the generator loops leave them; the current time is a parameter.

## Model

| member | source | states |
|---|---|---|
| ApiState.State.Create | kubernetes_model/apimodel/api_model.go:963-1027 | the locked create turns the map, the used ids and the reply into exactly what the create step says: UID drawn before name and admission, name generated only if empty, existing key refused, version drawn last |
| ApiOutcomes.CreateOutcome | kubernetes_model/apimodel/api_model.go:963-1027 | a create either leaves the map alone with the error of the first check that fails, or stores exactly what admission returned, under the drawn UID and version, and returns it |
| ApiState.State.UpdateLocked | kubernetes_model/apimodel/api_model.go:1037-1252 | the locked update or status update does exactly the update step: UID precondition before version, unconditional when no version is given, removal when the last finalizer goes, no write and no new version for equal content |
| ApiOutcomes.UpdateOutcome | kubernetes_model/apimodel/api_model.go:1037-1145 | after an update whose checks pass the reply is the error of the update admission; or the object is gone, when it was terminating without grace and lost its last finalizer; or the map holds the admitted content, that object is the reply, and its version is the drawn one exactly if the content differs from the old one |
| ApiOutcomes.UpdateStatusOutcome | kubernetes_model/apimodel/api_model.go:1155-1252 | the same of a status update, with the status admission |
| ApiState.State.Patch | kubernetes_model/apimodel/patch.go:28-71 | a patch is one more atomic update or status update of the patched object, without the UID precondition, after the media-type, subresource and name checks |
| ApiOutcomes.PatchOutcome | kubernetes_model/apimodel/patch.go:28-71 | the same of a patch: what is admitted, by the hook of the addressed subresource, is the patched object, whatever UID it carries |
| ApiState.State.CheckGracefulDelete | kubernetes_model/apimodel/api_model.go:1418-1527 | the mutating grace check, on its copies, grants, postpones or fails exactly as the grace specification does, and changes nothing but the deletion fields and the requested period |
| ApiState.State.Delete | kubernetes_model/apimodel/api_model.go:1566-1662 | a delete refuses, keeps, removes or rewrites the object exactly as the verdict says, and only a rewrite draws a version |
| ApiOutcomes.DeleteRefused | kubernetes_model/apimodel/api_model.go:1566-1600 | a delete is refused, the store untouched, exactly for a missing key, invalid options, a failing precondition, or a live object of a kind without delete support |
| ApiOutcomes.FirstDeleteOfPod | kubernetes_model/apimodel/api_model.go:1477-1493 | a live Pod gets the grace its strategy answers and a timestamp that far ahead; it goes at once only when that grace is zero and no finalizer is left |
| ApiOutcomes.FirstDeleteOfOthers | kubernetes_model/apimodel/api_model.go:1497-1509 | a live object of the other kinds goes at once, or is marked with grace zero and the current time when a finalizer is left |
| ApiOutcomes.RepeatedDelete | kubernetes_model/apimodel/api_model.go:1443-1474 | while grace is left, a delete that asks for no less changes nothing; one that asks for less moves the timestamp back by the difference, but not before now, and one that asks for zero removes the object unless a finalizer is left |
| ApiOutcomes.DeleteWithoutGrace | kubernetes_model/apimodel/api_model.go:1566-1662 | with no grace left a delete changes nothing but the finalizers, and removes the object when none is left |
| Finalizers.DeletionFinalizers | kubernetes_model/apimodel/api_model.go:1323-1365 | the length-and-membership test reports a change exactly when the rebuilt list is no permutation of the old one, duplicates included |
| Finalizers.KeepsOrder | kubernetes_model/apimodel/api_model.go:1323-1365 | a delete keeps all other finalizers, in their order |
| Finalizers.AtMostOneGc | kubernetes_model/apimodel/api_model.go:1254-1365 | the list left behind holds the wanted garbage-collection finalizer once, or none: never both |
| Finalizers.FinalizersLeft | kubernetes_model/apimodel/api_model.go:1254-1365 | how often each finalizer is left: `orphan` and `foregroundDeletion` once exactly if the options, or else the first of the two in the list, ask for it, every other as often as before |
| Finalizers.OthersInOrder | kubernetes_model/apimodel/api_model.go:1323-1365 | the other finalizers that `KeepsOrder` speaks of are the list at exactly the positions that hold neither of the two |
| Finalizers.SecondRewriteKeeps | kubernetes_model/apimodel/api_model.go:1254-1365 | deleting again with the same options finds nothing to change |
| ApiRuns.StepEvolves | kubernetes_model/apimodel/api_model.go:963-1662 | every operation keeps the store valid (distinct UIDs and versions, deletion timestamp exactly with a non-negative grace, no stored object with grace zero and no finalizers) and each entry afterwards is the old one, a later stage of the same incarnation under a version never used, or a new incarnation under a UID never used |
| ApiRuns.DeleteTransition | kubernetes_model/apimodel/api_model.go:1566-1662 | on the delete path the generation moves only when deletion starts, an accepted shortening is strict, and with no grace left only finalizers change |
| ApiRuns.UpdateKeepsDeletionState | kubernetes_model/apimodel/api_model.go:1081-1252 | updates, status updates and patches never move an object along the deletion machine |
| ApiRuns.RemovalJustified | kubernetes_model/apimodel/api_model.go:1126-1132 | whatever operation removes an object, its resulting finalizers are empty and no grace is left; an update removes only what was already terminating with no grace |
| ApiRuns.VersionNamesOneObject | kubernetes_model/apimodel/api_model.go:286-294 | over any run a resource version labels one object value under one key, across delete and re-create |
| ApiRuns.UidNamesOneIncarnation | kubernetes_model/apimodel/api_model.go:276-284 | over any run a UID is one key, stored without a gap, moving only from live to terminating with a grace that never grows |
| ApiRuns.GoneStaysGone | kubernetes_model/apimodel/api_model.go:276-284 | once an incarnation is gone its UID never appears again |
| ApiRuns.WriteActsOnWhatWasRead | kubernetes_model/apimodel/api_model.go:1081-1144 | a successful write that carries a version read earlier in the run acts on exactly the object that was read |
| ApiTx.DeleteTx | kubernetes_model/apimodel/transaction.go:28-59 | the retry loop returns and leaves what its unrolled specification says, for any interference before each get and each write |
| ApiTx.DeleteTxRefines | kubernetes_model/apimodel/transaction.go:28-59 | its result is that of one delete at one instant, the caller's version precondition dropped, exactly when the options are valid or the object it reads first is missing or has the UID asked for |
| ApiTx.DeleteTxReportsUidFirst | kubernetes_model/apimodel/transaction.go:42-48 | a concrete store and call on which the two differ |
| ApiTx.DeleteTxQuietTurn | kubernetes_model/apimodel/transaction.go:28-59 | with no change between get and write the transaction ends in that iteration |
| ApiTx.UpdateTx | kubernetes_model/apimodel/transaction.go:61-173 | both update loops return and leave what their unrolled specification says under any interference |
| ApiTx.UpdateTxRefines | kubernetes_model/apimodel/transaction.go:61-173 | under any interference the result is that of one unconditional update at one instant of the call |
| ApiTx.UpdateTxAlone | kubernetes_model/apimodel/transaction.go:61-173 | alone, the loops end in the first iteration exactly when the submitted UID is empty or current, and otherwise retry for ever |
| PodNames.ParseOfPodName | controllers/statefulset/stateful_set.go:39-57 | parsing a printed Pod name gives back the set name, dashes included, and the ordinal |
| PodNames.MemberIffPrinted | controllers/statefulset/stateful_set.go:64-67 | a name is a member of a set exactly when the set prints it for some int32 ordinal |
| PodNames.MemberIffCanonicalSuffix | controllers/statefulset/stateful_set.go:64-67 | after the set name and a dash, exactly the decimal numbers in range without sign or leading zero make a member |
| PodNames.ClaimNameInjective | controllers/statefulset/stateful_set.go:43-45 | for one set no two pairs of template and ordinal share a claim |
| StatefulPods.UpdateIdentity | controllers/statefulset/stateful_set.go:134-143 | the five assignments, nil labels included, make exactly the identified Pod |
| StatefulPods.IdentifiedMember | controllers/statefulset/stateful_set.go:134-153 | on a member name the repair makes the identity match, keeps name, spec and deletion state, and is idempotent |
| StatefulOutcomes.RepairChangesIdentityOnly | controllers/statefulset/stateful_set.go:134-143 | the repair sets the namespace and the two labels of the ordinal and keeps every other label and every other field |
| StatefulPods.InitStorage | controllers/statefulset/stateful_set.go:166-190 | one claim volume per template name in some map order, then the template volumes no claim shadows, in order |
| StatefulPods.CheckStorage | controllers/statefulset/stateful_set.go:192-213 | the map-based test holds exactly when the last volume of each template name is that ordinal's claim |
| StatefulPods.BuiltStorageMatches | controllers/statefulset/stateful_set.go:166-213 | for every map order the built storage passes the test and keeps every volume no claim shadows |
| StatefulPods.NewStatefulSetPod | controllers/statefulset/stateful_set.go:215-224 | a fresh Pod passes the identity, storage and spec tests, so nothing repairs or replaces it, and has the template's other labels and every volume no claim shadows |
| StatefulReconcile.FirstCondemnedPod | controllers/statefulset/stateful_set.go:309-321 | the highest condemned Pod, none exactly when nothing is condemned |
| StatefulReconcile.LargestOutdatedPod | controllers/statefulset/stateful_set.go:353-361 | the outdated Pod of the highest desired ordinal, none only when none is outdated |
| StatefulReconcile.CreateStatefulPod | controllers/statefulset/stateful_set.go:257-276 | under any faults a Pod is requested only once every claim its volumes name is there |
| StatefulReconcile.ReconcileDesiredPods | controllers/statefulset/stateful_set.go:366-396 | under any faults it issues repairs and at most one create, never a delete, and the create ends it; with fresh views and a nil error it leaves the world repaired up to the first missing or terminating ordinal |
| StatefulReconcile.ReconcileReplicas | controllers/statefulset/stateful_set.go:426-438 | ordering safety under any faults: repairs, then at most one create or delete, as the last request; ordinal n is created only if 0..n-1 were observed running and its claims are there; only the highest condemned, else the highest outdated Pod is deleted, and only with all desired ones running. With fresh views a nil error means that the world took exactly one `NextWorld` step |
| StatefulOutcomes.OrderSafeMeans | controllers/statefulset/stateful_set.go:366-438 | the ordering safety of `ReconcileReplicas`, request by request, on names, labels, volumes and claims: what a created Pod looks like, who must be listed running, and which Pod is the highest to go |
| StatefulOutcomes.SpecMeans | controllers/statefulset/stateful_set.go:324-351 | the spec test accepts a Pod exactly when hostname, subdomain and the rest of the spec are the template's and the last volume of each claim template's name is the ordinal's claim |
| StatefulConvergence.MeasureZeroIffConverged | controllers/statefulset/stateful_set.go:366-438 | the distance is zero exactly when the Pods are ordinals 0..replicas-1, all matching, with their claims, and nothing else |
| StatefulConvergence.StepDecreases | controllers/statefulset/stateful_set.go:366-438 | every reconciliation that changes anything strictly lowers the distance and keeps the world valid |
| StatefulConvergence.RemovalDecreases | controllers/statefulset/stateful_set.go:120-122 | so does the end of a terminating Pod |
| StatefulConvergence.FixpointIffConverged | controllers/statefulset/stateful_set.go:426-438 | with no terminating Pod the reconciliation leaves the world alone exactly when it has converged |
| StatefulConvergence.ConvergedIsFixed | controllers/statefulset/stateful_set.go:426-438 | the only step from a converged world is to stay |
| StatefulConvergence.ChangesBounded | controllers/statefulset/stateful_set.go:426-438 | over any run of reconciliations and Pod removals the world changes at most as often as the initial distance |
| StatefulConvergence.Convergence | controllers/statefulset/stateful_set.go:426-438 | every fair run from a valid world reaches a converged world and stays there |
| StatefulOutcomes.ConvergedMeans | controllers/statefulset/stateful_set.go:366-438 | converged is exactly: the Pods are those printed for the ordinals below the replica count, each running with its identity labels, the template's spec and its claims |
| StatefulOutcomes.LeftAloneMeans | controllers/statefulset/stateful_set.go:426-438 | with no terminating Pod, the reconciliation leaves exactly such worlds alone |
| StatefulOutcomes.OutdatedIsNotLeftAlone | controllers/statefulset/stateful_set.go:330-361 | so an edited template is noticed: a desired Pod with another spec is not left alone |
| StatefulOutcomes.RunsEndRight | controllers/statefulset/stateful_set.go:426-438 | and every fair run from a valid world ends in such a world for good |
| ReplicaSets.SlowStartBatch | controllers/replicaset/replica_set.go:198-222 | never more calls than `count`; successes are the calls that succeeded; no error exactly when all `count` succeed; on failure it stopped in the k-th doubled batch, all before it having succeeded, and reports one of that batch's errors |
| ReplicaSets.GetIndirectlyRelatedPods | controllers/replicaset/replica_set.go:57-80 | every UID a usable related ReplicaSet lists, once each; an error exactly when a usable selector's listing failed |
| ReplicaSets.GetPodsToDelete | controllers/replicaset/replica_set.go:82-107 | a prefix of a permutation of the active Pods, and no kept Pod goes before a chosen one in the order by rank |
| ReplicaSets.ManageReplicas | controllers/replicaset/replica_set.go:109-185 | requests never exceed the smaller of the difference and the burst; with a fresh list it only adds Pods from the template, or only deletes from the first victims in the order by rank, under any faults; a nil error means all of the quota was created or deleted, unless the namespace is being deleted |
| ReplicaSets.SyncReplicaSet | controllers/replicaset/replica_set.go:224-266 | a deleted or absent ReplicaSet causes no request; otherwise the sync does what `ManageReplicas` does on the active Pods of the list, and returns the status update's error before its own |
| ReplicaSets.SyncsConverge | controllers/replicaset/replica_set.go:109-185 | after k syncs the distance is what k bursts leave of it; the number asked for is reached exactly when k bursts cover the distance, never overshooting |
| ReplicaSets.StepMoves | controllers/replicaset/replica_set.go:109-185 | each sync moves by exactly the quota, and at the number asked for changes nothing |
| ReplicaSetOutcomes.VictimsMean | controllers/replicaset/replica_set.go:57-107 | the victims are as many live Pods as asked for, and no spared one goes before a victim in the order by rank, the rank being the number of active related Pods on the same node, each UID of the related ReplicaSets counted once |
| ReplicaSetOutcomes.SyncStepMeans | controllers/replicaset/replica_set.go:109-185 | the live Pods become as many more or fewer as the burst allows, new ones from the template, and every other Pod stays as it was |
| Deployments.FindOldReplicaSets | controllers/deployment/deployment.go:79-90 | the list without the UID of the first match |
| Deployments.GetNewReplicaSet | controllers/deployment/deployment.go:117-156 | the first match without a write; else one create of the hash-named ReplicaSet with all replicas, or the lister's object of that name when it exists |
| Deployments.Rollout | controllers/deployment/deployment.go:181-195 | with a fresh list and no name collision, under any faults nothing is lost and only replica counts change, to zero or the Deployment's; a nil error means that the world and the number of writes are exactly those specified |
| Deployments.SyncDeployment | controllers/deployment/deployment.go:197-233 | the same for the whole sync over the owned ReplicaSets; an absent or deleted Deployment causes no write |
| Deployments.ReplicaSum | controllers/deployment/deployment.go:158-195 | after an error-free sync the replicas over all owned ReplicaSets sum to the Deployment's, all at the chosen one, which has the template; foreign ReplicaSets are untouched |
| DeploymentOutcomes.FindNewMeans | controllers/deployment/deployment.go:58-66 | the search finds the first owned ReplicaSet in lister order whose template agrees with the Deployment's in all labels but the hash label and in the rest, and fails only if there is none |
| DeploymentOutcomes.RolloutOutcome | controllers/deployment/deployment.go:117-195 | after an error-free sync the target has that template and all replicas, every other owned ReplicaSet has none and is otherwise as it was, and foreign ones are untouched |
| Deployments.NextSyncQuietIff | controllers/deployment/deployment.go:48-66 | from there, whatever order the lister returns, the next sync writes nothing exactly when at most one owned ReplicaSet matches or no replicas are asked for |
| Deployments.SecondSyncQuietIff | controllers/deployment/deployment.go:48-66 | the same, stated on the world before the first of two syncs |
| Deployments.TwoMatchesFlap | controllers/deployment/deployment.go:48-66 | with two idle matches the first sync fills the one listed first, and a second sync that lists the other first writes twice; `FlapInstance` is a concrete such world |
| Aggregation.RuleExists | controllers/clusterroleaggregation/clusterroleaggregation.go:91-98 | finds a rule exactly when a semantically equal one is there, nil and empty slices being the same |
| Aggregation.SortByName | controllers/clusterroleaggregation/clusterroleaggregation.go:77-89 | the in-place sort leaves a permutation in name order |
| Aggregation.ListedNames | controllers/clusterroleaggregation/clusterroleaggregation.go:44-53 | whatever order the lister returns, the sorted roles are one list, fixed by the set of uniquely named matches |
| Aggregation.SyncClusterRole | controllers/clusterroleaggregation/clusterroleaggregation.go:26-75 | writes the role with the computed rules exactly when it aggregates, its selectors parse and the rules differ semantically; reports exactly parse and write failures |
| AggregationOutcomes.WrittenMeans | controllers/clusterroleaggregation/clusterroleaggregation.go:26-75 | a sync writes exactly when the role aggregates, its selectors parse, and the number of rules or one of the five fields of some rule differs; only the rules change |
| AggregationFixpoint.ComputedIsCanonical | controllers/clusterroleaggregation/clusterroleaggregation.go:38-67 | the computed list has no two semantically equal rules and holds exactly those of the matched roles other than the role itself |
| AggregationOutcomes.ComputedRules | controllers/clusterroleaggregation/clusterroleaggregation.go:38-63 | every rule of another matched role is there with all five fields, every rule there comes from one, and no two agree in all fields |
| AggregationOutcomes.DedupOrder | controllers/clusterroleaggregation/clusterroleaggregation.go:55-61 | exactly the rules that repeat an earlier one are dropped, and the rest keeps its order |
| AggregationOutcomes.SourceOrder | controllers/clusterroleaggregation/clusterroleaggregation.go:40-61 | rules are gathered selector by selector, and for each selector from its matches in name order |
| AggregationFixpoint.SyncAddsStable | controllers/clusterroleaggregation/clusterroleaggregation.go:26-75 | syncing a role whose children are settled settles it and disturbs nothing settled |
| AggregationFixpoint.RoundSettles | controllers/clusterroleaggregation/clusterroleaggregation.go:26-75 | one fair round, in any order, settles one more rank of an acyclic aggregation |
| AggregationFixpoint.RoundsReachFixpoint | controllers/clusterroleaggregation/clusterroleaggregation.go:26-75 | after as many fair rounds as the longest chain of aggregating roles every one of them holds exactly the rules of its non-aggregating descendants, and no sync writes anything |
| AggregationOutcomes.RoundsGrantLeaves | controllers/clusterroleaggregation/clusterroleaggregation.go:26-75 | the rules every aggregating role then holds are, field by field, those of its non-aggregating descendants |
| AggregationFixpoint.AcyclicIffChainsBounded | controllers/clusterroleaggregation/clusterroleaggregation.go:44-67 | chains are bounded exactly when no role aggregates itself however indirectly, and then by the number of roles |
| Iam.State.CreatePolicy | iam_model/state.go:108-138 | a policy gets an id never used before, and an empty resource is refused without a trace |
| Iam.State.DetachIdentityPolicy | iam_model/state.go:161-178 | removes exactly that policy from exactly that identity, or reports that one of the three is missing |
| IamReconcile.MissingIdentities | iam_model/example/example.go:86-98 | the desired identities without access, each once |
| IamReconcile.ReconcileIdentityAccess | iam_model/example/example.go:7-40 | success exactly when nobody is missing or all desired identities exist and the resource has a name; success means access is exactly `desired`; access elsewhere is untouched; at every state passed through access is within initial and desired, and all undesired access is gone before anybody gains any |
| Views.Assigner.Assign | scripts/generate_views.py:190-200 | the recursive traversal terminates, appends every newly owned type once with all it mentions owned, and keeps the order topological where types can be ranked |
| Views.Assigner.AssignAll | scripts/generate_views.py:187-204 | every type is owned by the first group that reaches it, the order lists each reachable type once, and it is topological exactly when no reachable type is reachable from anything it mentions |
| ViewOutcomes.OwnershipMeans | scripts/generate_views.py:190-204 | on fields, keys and elements: roots belong to their group or an earlier one, what a type mentions to its group or an earlier one, and a type is a root of its group or mentioned by a type of it |
| ViewOutcomes.OrderMeans | scripts/generate_views.py:190-204 | a complete topological order lists every owned type once, each after all it mentions |
| Views.RankableIffAcyclic | scripts/generate_views.py:190-200 | the types of a closed set can be ranked above what they mention exactly when none of them contains itself |
| ViewOutcomes.AcyclicMeans | scripts/generate_views.py:190-200 | acyclic is exactly: no cycle of fields, keys and elements goes through the types at hand |
| Views.ChildGroupNotLater | scripts/generate_views.py:190-204 | what a type mentions is never owned by a later group |
| Views.Emit | scripts/generate_views.py:419-434 | each group's output is its structs in the order of the traversal |
| ViewOutcomes.OutputMeans | scripts/generate_views.py:419-434 | a group's output is the order at exactly the positions of the structs the group owns |
| ViewKinds.OwnsHeapIff | scripts/generate_views.py:234-238 | a type is classified as owning heap exactly when its view embeds, by value and however deep, a pointer, slice or map |
| ViewKinds.RawPureIff | scripts/generate_views.py:227-232 | a type is aliased outright exactly when its view embeds no heap cell and no struct with an excluded field, however deep, so the aliasing branch never drops ownership or leaks a field |
| ViewOutcomes.KindsMean | scripts/generate_views.py:227-238 | pointers, slices and maps own heap and are never aliased; scalars and interfaces are aliased and own none |
| ViewKinds.WellFoundedIff | scripts/generate_views.py:227-238 | both recursions end exactly on the schemas in which no struct holds itself by value; recursion through a pointer, slice or map is allowed |
| Views.EmissionIsDependencyOrdered | scripts/generate_views.py:419-438 | every view an emitted view refers to, however deep, comes before it in its own output or belongs to an imported, earlier group |

## Left out

- Lists, selectors and indexes of the store (`objList`, `Index`, `ByIndex`), the typed per-kind wrappers, deep copies and label selection: linear filters and casts over the operations modelled here.
- Schema defaulting, version conversion, REST strategies, validation and patch application: upstream code, kept as the function values of `Hooks`.
- The random generators: their retry loops appear only as the requirement that the drawn id, version or name is unused; that a draw terminates is not stated.
- Nil and empty slices or maps are one value in store objects (they are kept apart in Pod labels and in policy rules); generations are unbounded integers; durations wrap as int64 products.
- Locks, goroutines, channels and wait groups: a locked method is one step, and a batch of goroutines is an arbitrary pattern of outcomes, its calls made one after the other.
- The retry loops are unbounded; the model bounds them by the number of turns other clients take, and a schedule that runs out is `StillRetrying`.
- ApiTx.DeleteTxRefines: assumes that validating delete options does not look at the version precondition the transaction itself overwrites.
- StatefulSets: owner filtering, releasing Pods with bad names, lister errors other than a missing claim, and the contents of claims beyond their names; a Pod spec outside hostname, subdomain and volumes is one opaque value copied from the template.
- StatefulConvergence.Convergence: the world holds members of the set only, the set does not change during the run, and admission leaves the compared fields alone.
- ReplicaSets: status calculation; what the status update answers is a parameter; an upstream Pod's phase, so a Pod is active when it is not terminating; the comparator of `ActivePodsWithRanks`, which is any strict weak order; int64 overflow of batch sizes. `spec.replicas` is a non-negative number and the burst is not negative, as the slicing in the source needs.
- Deployments.Rollout: says nothing about a name collision beyond what `GetNewReplicaSet` returns then, because the source assumes there is none.
- Aggregation: parsing and matching of label selectors are function values; the sort algorithm is insertion sort by swaps, which `Aggregation.ListedNames` shows to be immaterial.
- AggregationFixpoint.RoundsReachFixpoint: syncs see a fresh lister, the API accepts the writes and all selectors parse.
- Iam: the package-level instance and its mutex; map iteration is an arbitrary choice of the next key.
- Views: reading configuration and schema files, name mangling, the text of the emitted Rocq modules, `has_zero`, and memoisation; one loop over the mentioned types stands for the two in `assign`.
- The ServiceAccount controller, test plumbing, generators and comparators, schema extraction and the proof-optimising scripts.
