# Model of the firewall policy backend

This project models the protocols and algorithms at the heart of the backend and
proves what they promise. The program manages reviewed firewall policies: a
revision becomes a plan of commands, the plan is executed on FortiGate devices
whose policy table is read top-down with the first match deciding, and a failed
execution is rolled back from snapshots. Around that stand the route analysis,
the planner, the interlock between publishing and deploying, the account catalog,
the inventory of observed policies, and a structural JSON differ.

| part | modules |
|---|---|
| first-match tables, orders, repositioning | `PolicyTables`, `PolicyOrder`, `Repositioning` |
| snapshot and execution of a plan | `DeploymentPlans`, `DeploymentSnapshots`, `DeploymentSafety`, `Devices`, `DeploymentSteps`, `DeploymentChecks`, `DeploymentRecords`, `DeploymentRuns` |
| rollback | `RollbackTables`, `RollbackSafety`, `RollbackPlans`, `RollbackSteps`, `RollbackPhases`, `Rollbacks`, `RollbackExample` |
| comparison of device state, undo of payloads | `Jsons`, `JsonLists`, `PolicyUndo` |
| planner and insertion chains | `DeploymentPlanner`, `DeltaPlans`, `PolicyChains`, `PlannedChains`, `Texts`, `FiniteSets` |
| publication and deployment | `Interlock` |
| paginated device reads | `PagedReads` |
| CIDR coverage, longest match, paths | `PrefixCoverage`, `DeviceRoutes`, `RoutePaths` |
| structural diff | `JsonPointers`, `StructuredDiff` |
| accounts and directory sync | `Accounts`, `AccountCatalogs`, `DirectorySync` |
| observed policies | `PublishedServices`, `PolicyInventory` |

Objects that the program updates in place are classes here (`DeploymentRun`,
`RollbackRun`, `Device`, `Coverage`, `Database`, `Catalog`, `Inventory`, `Differ`);
values are datatypes. `Device` keeps a ghost history of every table it has had, so
that a method can promise something about all tables in between.

## How the deployment proof goes

A run of a deployment shows three kinds of table: the base with some new policies
appended disabled and moved into place, one of those before its move, and the table
in which a set of rows already has its final content. `PolicyTables.StagedRunIsSafe`
is about the last kind for any two row maps and any stage assignment: as long as
restricting changes come before crossing ones and these before permitting ones, a
packet accepted midway is accepted at one of the two ends. The rollback uses the same
theorem from its own start and end. `DeploymentRun.Execute` and `RollbackRun.Rollback`
then show that every write of the program leads from one such table to the next, over
a connection that may break at any write of the run or of its rollback. Both classes
also work on a device that somebody else has changed: a ghost constant `clean` tells
the two situations apart, and what holds without it is that a step writes only if the
policy and the order are as they were approved or as the run itself has left them.

## What turned out not to hold

Each of these is kept as the program has it; the theorem states when it does hold.

* A rollback of a run whose DELETE was sent but never applied repositions the policy,
  which is still active, below its saved successor before the rest of the table is
  restored. If the policy is a DENY, packets it alone denies may be accepted for a
  moment that neither end of the rollback accepts. `Rollbacks.RollbackRun.Rollback`
  proves that this happens exactly if such a packet escapes
  (`RollbackTables.Escapes`); `RollbackExample` has the smallest table.
* When neither revision has contexts the planner emits nothing, although rules may
  still name a context of a target. An error-free plan reaches the next revision exactly
  if it is not such an idle one or both revisions manage the same names everywhere
  (`DeltaPlans.GeneratePlan`); `DeltaPlans.IdlePlanLeavesPolicy` has the input.
* The publication gate orders deployment runs by the stamp taken before the lock is
  acquired. It decides by the run that came last exactly if all other runs were stamped
  before that one (`Interlock.StampsMustFollowLocks`). In
  `Interlock.LateStarterIsOverlooked` the database itself publishes over a revision
  whose last deployment has failed.
* The undo of a policy change passes the checks against the approved base again
  whenever the planner wrote the change. Compared with the policy as the device showed
  it, a field that only an older plan owns is put back as that plan wrote it, which may
  show less: `PolicyUndo.UndoRoundTrip` has the exact condition,
  `PolicyUndo.OlderPlanFieldChanges` an input.
* The comparison of lists takes the first unused candidate, so it can depend on the
  order. `JsonLists.AnyOrderIsClassed` says exactly when it does not; scalar lists and
  member lists never depend on it (`JsonLists.ReviewedListsInAnyOrder`).
* Service names are unique case-sensitively but looked up in lower case. A manual
  assignment moves to a later published service whose name differs only in case. Over a
  whole run it stays exactly as long as no scan of its policy finds this:
  `PolicyInventory.ManualStays`, `PolicyInventory.CaseVariantTakesOver`.

## Model

| member | source | states |
|---|---|---|
| `PolicyTables.StagedRunIsSafe` | go/pkg/backend/fortigate-deployment.go:515-602 | In a table where any set of rows already has its new content, chosen so that restricting changes precede crossing and permitting ones, every accepted packet is accepted by the old or by the new table |
| `PolicyTables.CrossingConditionIsExact` | go/pkg/backend/fortigate-deployment.go:189-243 | A change of action and match at once is safe above every row whose change the same phase allows, exactly under the stated condition on its two matches |
| `Repositioning.RepositioningConverges` | go/pkg/backend/fortigate-deployment.go:1230-1247 | As many passes of the repositioning loop as there are moved policies, in any order, put every one directly next to its saved neighbours, provided every chain of saved successors ends at a policy that is not moved |
| `Repositioning.SettledIsBase` | go/pkg/backend/fortigate-deployment.go:1257-1273 | A table in which every policy is settled has the saved order as a whole |
| `Repositioning.DescendingIsBase` | go/pkg/backend/fortigate-deployment.go:1544-1580 | An order in which every policy stands above its saved successor is the saved order |
| `PolicyOrder.MovedBeforeLinks` | go/pkg/backend/fortigate-deployment.go:692-715 | A policy moved before another one stands directly before it |
| `PolicyOrder.MovedAfterLinks` | go/pkg/backend/fortigate-deployment.go:1544-1580 | A policy moved after another one stands directly after it |
| `PolicyOrder.OrderDetermines` | go/pkg/backend/fortigate-deployment.go:1021-1036 | Two orders of the same keys with the same relative positions are equal |
| `DeploymentSafety.PreparingIsHarmless` | go/pkg/backend/fortigate-deployment.go:515-540 | Creating policies disabled and moving them changes the answer for no packet, after each single write |
| `DeploymentSafety.EveryStageIsSafe` | go/pkg/backend/fortigate-deployment.go:541-602 | At every point of the finalising phases a packet accepted midway is accepted before the run or after it |
| `DeploymentSafety.PlanIsWellStaged` | go/pkg/backend/fortigate-deployment.go:541-602 | Finalised DENYs, deleted ACCEPTs, finalised ACCEPTs and deleted DENYs are changes of the kinds their phases allow |
| `DeploymentSafety.PreparedInOrder` | go/pkg/backend/fortigate-deployment.go:307-353 | After each creation every present policy of the block stands directly before the next present one, down to the anchor |
| `DeploymentSafety.DeploymentReachesReviewedState` | go/pkg/backend/fortigate-deployment.go:307-409 | The last table holds every reviewed policy with its payload, none of the deleted ones, every other row as it was, and the block contiguous in reviewed order directly above the anchor |
| `DeploymentSafety.FinalKeys` | go/pkg/backend/fortigate-deployment.go:573-602 | The keys of the last table are those of the base and of the created policies without the deleted ones |
| `DeploymentRuns.EveryRunTableIsSafe` | go/pkg/backend/fortigate-deployment.go:515-602 | Every table a run can show accepts only what the base or the final table accepts |
| `DeploymentRuns.DeploymentRun.Execute` | go/pkg/backend/fortigate-deployment.go:462-608 | The phases in their order on a device whose connection may break at any write. On whatever table: success means that every command is carried out, policies with other names are as they were, and nothing is written unless the order is the expected one. If nobody else is at work: every table ever shown is safe, the records describe what was touched, success means the reviewed table, and a connection that holds means success |
| `DeploymentRuns.DeploymentRun.PrepareNew` | go/pkg/backend/fortigate-deployment.go:609-722 | Creating one policy disabled, reading it back, moving it and checking its place. On any table it writes only if the order is as expected, the name is free and the successor is the one the snapshot saw; success leaves the policy disabled in its place |
| `DeploymentRuns.DeploymentRun.UpdateExisting` | go/pkg/backend/fortigate-deployment.go:609-722 | Overwriting one policy; on any table it writes only if the policy with this name is the approved one and the order is as expected, and success leaves the reviewed content |
| `DeploymentRuns.DeploymentRun.Activate` | go/pkg/backend/fortigate-deployment.go:724-792 | Enabling one prepared policy; on any table it writes only if the recorded policy is still disabled and stands in its place, and success leaves it reviewed and in place |
| `DeploymentRuns.DeploymentRun.DeletePolicy` | go/pkg/backend/fortigate-deployment.go:609-722 | Deleting one policy; on any table it writes only if the policy with this name is the approved one and the order is as expected, and success means that the name is gone |
| `DeploymentRuns.DeploymentRun.FinalisePolicies` | go/pkg/backend/fortigate-deployment.go:541-602 | One finalising phase for one action |
| `DeploymentRuns.DeploymentRun.DeletePolicies` | go/pkg/backend/fortigate-deployment.go:541-602 | One deleting phase for one action |
| `DeploymentRuns.DeploymentRun.VerifyFinalState` | go/pkg/backend/fortigate-deployment.go:849-872 | True exactly if every DELETE has left no policy with its name and every UPSERT one with the reviewed content directly before its successor |
| `DeploymentChecks.RevalidateIs` | go/pkg/backend/fortigate-deployment.go:898-972 | On any table a write is let through exactly if the name is free and has a place, or the policy is the approved one under the key of the snapshot, with the expected order; nothing is to be done exactly if the policy is as reviewed; all else is a conflict |
| `DeploymentChecks.OwnWriteKeeps` | go/pkg/backend/fortigate-deployment.go:609-722 | A write by the names of the commands leaves policies with other names alone |
| `DeploymentRuns.CreationGoesThrough` | go/pkg/backend/fortigate-deployment.go:898-972 | On the way of one creation every revalidation finds what it expects and the advanced order is the new order of the device |
| `DeploymentRuns.RemovalGoesThrough` | go/pkg/backend/fortigate-deployment.go:1037-1093 | On the way of one deletion the policy is found as approved, and the advanced order is the new order of the device |
| `DeploymentRuns.FinalisationGoesThrough` | go/pkg/backend/fortigate-deployment.go:724-792 | On the way of one finalisation the policy is found as approved or as prepared, and is read back as reviewed |
| `DeploymentRuns.PhasesPartition` | go/pkg/backend/fortigate-deployment.go:541-602 | The four phases together finish every command exactly once |
| `DeploymentSteps.FinalTableInSync` | go/pkg/backend/fortigate-deployment.go:849-872 | Every command is in sync with the final table |
| `DeploymentSteps.NewPolicyFindsItsPlace` | go/pkg/backend/fortigate-deployment.go:974-988 | The live successor of a new policy is the next present one below it |
| `DeploymentSteps.ExistingPolicyIsPresent` | go/pkg/backend/fortigate-deployment.go:898-972 | Revalidation finds an untouched policy as the snapshot saw it |
| `DeploymentSteps.NothingToDo` | go/pkg/backend/fortigate-deployment.go:609-722 | A command whose change is empty leaves every table as it is |
| `DeploymentRecords.CreatedAboveAnchor` | go/pkg/backend/fortigate-deployment.go:369-409 | A created policy stands above the anchor in every table of the run once it is moved |
| `Devices.Device.Send` | go/pkg/backend/fortigate-deployment.go:1857-1940 | A write is applied as asked when it is answered; a broken connection leaves open whether it was |
| `DeploymentSnapshots.TakeSnapshot` | go/pkg/backend/fortigate-deployment.go:135-208 | On any table, taken exactly if the anchor is found once, no name of a command occurs twice, every live policy has the payload already or is an UPSERT whose approved rule it still shows without an unsafe DENY change, and the block stands in order; the plan then shows the table |
| `DeploymentSnapshots.SnapshotCommands` | go/pkg/backend/fortigate-deployment.go:135-208 | Every command is recorded with its live content and neighbours, and one is refused exactly if its name is ambiguous or its live policy neither has the payload nor is approved |
| `DeploymentSnapshots.AcceptableIs` | go/pkg/backend/fortigate-deployment.go:135-208 | What is accepted is exactly what shows the table, is allowed command by command, and stands in order |
| `DeploymentSnapshots.StandsInOrder` | go/pkg/backend/fortigate-deployment.go:307-353 | True exactly if, leaving out the policies to be deleted, every existing policy stands directly before its effective successor |
| `DeploymentSnapshots.AdjacentAfterDeletes` | go/pkg/backend/fortigate-deployment.go:355-367 | True exactly if the second policy directly follows the first one once the deleted policies are left out |
| `Rollbacks.RollbackRun.Rollback` | go/pkg/backend/fortigate-deployment.go:1132-1299 | On any table: nothing is written unless every touched command is where this run can have left it, and success means that all restored policies are next to their saved neighbours. If nobody else was at work: wherever the connection is lost, every table shown accepts only what start, end or an escaping packet accounts for; if it holds, the table ends as the snapshot saw it, and the tables in between accept only what start or end accept exactly if no packet escapes that the end would not accept |
| `Rollbacks.RollbackRun.Reconcile` | go/pkg/backend/fortigate-deployment.go:1467-1542 | Has no failure exactly if every touched command is where this run can have left it: a new policy absent, prepared or as reviewed under its recorded key, an existing one as it was or as reviewed; then every outcome is bound as the table shows it. It writes nothing |
| `Rollbacks.RollbackRun.RecreateDeleted` | go/pkg/backend/fortigate-deployment.go:1227-1229 | Deleted policies are recreated disabled at the end of the table |
| `Rollbacks.RollbackRun.RepositionDeleted` | go/pkg/backend/fortigate-deployment.go:1230-1247 | The repositioning passes end in the order of the fixed point, and every table on the way is one of the rollback, wherever the connection is lost |
| `Rollbacks.RollbackRun.Reposition` | go/pkg/backend/fortigate-deployment.go:1231-1246 | Moving one deleted policy is one step of the fixed-point iteration |
| `Rollbacks.RollbackRun.UndoEach` | go/pkg/backend/fortigate-deployment.go:1172-1253 | One phase of undoing updates or creations, latest first |
| `Rollbacks.RollbackRun.ActivateEach` | go/pkg/backend/fortigate-deployment.go:1429-1457 | One phase of enabling recreated policies in place |
| `Rollbacks.RollbackRun.RestoreOrder` | go/pkg/backend/fortigate-deployment.go:1257-1297 | The last repositioning loop and the check of all neighbours change nothing and succeed |
| `Rollbacks.RollbackRun.RollBack` | go/pkg/backend/fortigate-deployment.go:1301-1404 | Undoes one command; on any table it writes only if the recorded outcome still shows and nobody has reordered other policies, and success means that the command is undone |
| `Rollbacks.RollbackRun.WriteBack` | go/pkg/backend/fortigate-deployment.go:1301-1404 | The write that undoes a command, and the read after it: success only if the table shows the command undone |
| `Rollbacks.RestorePosition` | go/pkg/backend/fortigate-deployment.go:1544-1580 | Moves a policy before its saved successor, or else after its saved predecessor, and checks the neighbour |
| `RollbackSafety.EveryRollbackTableIsSafe` | go/pkg/backend/fortigate-deployment.go:1132-1299 | Every table a rollback can show accepts only what its first or last table accepts, or a packet that escapes |
| `RollbackSafety.UndoEnds` | go/pkg/backend/fortigate-deployment.go:1275-1297 | Once every change is undone the table is the one the snapshot saw, in content and order |
| `RollbackTables.RevivingIsHarmless` | go/pkg/backend/fortigate-deployment.go:1227-1229 | Recreating disabled policies at the end of the table changes no answer |
| `RollbackTables.SinkingIsSafe` | go/pkg/backend/fortigate-deployment.go:1230-1247 | Every order of the repositioning loop accepts what its start accepts, and beyond that only packets that escape |
| `RollbackTables.FirstMoveLetsEscape` | go/pkg/backend/fortigate-deployment.go:1230-1247 | The first repositioning of a policy whose DELETE was never applied makes every escaping packet accepted |
| `RollbackPlans.StoppedIsClean` | go/pkg/backend/fortigate-deployment.go:462-608 | However a run stops, the table is one that a rollback can start from |
| `RollbackPlans.UndoOfOk` | go/pkg/backend/fortigate-deployment.go:1132-1178 | What a stopped run leaves behind can be undone |
| `RollbackPlans.TurnedWhole` | go/pkg/backend/fortigate-deployment.go:189-243 | The condition on the plan carries over to what is undone |
| `RollbackSteps.StoppedIsAttributable` | go/pkg/backend/fortigate-deployment.go:1467-1542 | With nobody else at work every touched command of a stopped run is attributed, and correctly |
| `RollbackSteps.AttributeIs` | go/pkg/backend/fortigate-deployment.go:1467-1542 | On any table an outcome is attributed exactly if this run can have left it, has no effect exactly if the policy is untouched, and is otherwise bound to what the table shows |
| `RollbackSteps.ControlledAre` | go/pkg/backend/fortigate-deployment.go:1136-1160 | The policies whose position a rollback does not check are exactly those that its touched commands name |
| `RollbackSteps.UndoingGoesThrough` | go/pkg/backend/fortigate-deployment.go:1301-1404 | Every check on the way of restoring or removing a policy holds |
| `RollbackSteps.RecreationGoesThrough` | go/pkg/backend/fortigate-deployment.go:1301-1404 | Every check on the way of recreating a policy holds |
| `RollbackSteps.ActivationGoesThrough` | go/pkg/backend/fortigate-deployment.go:1429-1457 | Every check on the way of enabling a recreated policy holds |
| `RollbackPhases.KindsInPhase` | go/pkg/backend/fortigate-deployment.go:1198-1253 | Undoing kind after kind keeps to the stages: baseline DENYs and new ACCEPTs first, then baseline ACCEPTs, new DENYs last |
| `RollbackExample.UnappliedDeleteLetsPacketEscape` | go/pkg/backend/fortigate-deployment.go:1230-1247 | A run that stops cleanly and a packet denied before and after its rollback, yet accepted on the way |
| `Jsons.SameAsItself` | go/pkg/backend/fortigate-deployment.go:2001-2055 | Every value shows itself |
| `Jsons.TextsCompare` | go/pkg/backend/fortigate-deployment.go:2001-2055 | Texts and numbers show exactly what has the same text; a blank text shows lists and objects too |
| `Jsons.ObjectsCompare` | go/pkg/backend/fortigate-deployment.go:2001-2055 | An object shows its wanted fields whatever else is there; only an empty list may be missing or null |
| `Jsons.ConstantsCompare` | go/pkg/backend/fortigate-deployment.go:2001-2055 | Null and truth values show exactly themselves |
| `JsonLists.AnyOrderIsClassed` | go/pkg/backend/fortigate-deployment.go:2084-2109 | A list that some assignment of candidates shows is accepted in every order of both lists exactly if wanted items that share a candidate share all of them |
| `JsonLists.UnassignableIsRejected` | go/pkg/backend/fortigate-deployment.go:2084-2109 | A list accepted in any order has such an assignment, so that one without is rejected in every order |
| `JsonLists.ReviewedListsInAnyOrder` | go/pkg/backend/fortigate-deployment.go:2084-2109 | Lists of scalars and member lists are accepted in every order or in none, exactly according to whether an assignment exists |
| `JsonLists.OrderMatters` | go/pkg/backend/fortigate-deployment.go:2084-2109 | Two items of which one shows more: the same list is accepted in one order and rejected in the other |
| `PolicyUndo.RollbackPayload` | go/pkg/backend/fortigate-deployment.go:411-460 | Builds the rollback payload: base, overlaid with what the device showed and, for each written field, with what it showed or its default |
| `PolicyUndo.SemanticDifferences` | go/pkg/backend/fortios-policy-semantics.go:233-282 | Lists exactly the reviewed fields that differ and the live fields that nobody reviewed |
| `PolicyUndo.ReadOnlyAre` | go/pkg/backend/fortios-policy-semantics.go:70-76 | The fields that are never compared are the policy id, the UUID and the key of origin |
| `PolicyUndo.RestoreIsOriginal` | go/pkg/backend/fortigate-deployment.go:411-460 | The rollback payload shows no difference from the live policy that passed the snapshot checks |
| `PolicyUndo.KnownFieldsAreExact` | go/pkg/backend/fortigate-deployment.go:411-460 | After write and undo every known live field, every defaulted field and every unwritten field has its old effective value |
| `PolicyUndo.UndoShowsPayload` | go/pkg/backend/fortigate-deployment.go:411-460 | After write and undo the policy shows what the undo wrote and nothing else, exactly when no field is an orphan |
| `PolicyUndo.UndoIsApproved` | go/pkg/backend/fortigate-deployment.go:411-460 | After write and undo the policy has no difference from the approved base, exactly when no field is an orphan |
| `PolicyUndo.UndoRoundTrip` | go/pkg/backend/fortigate-deployment.go:411-460 | After write and undo the policy has no difference from the policy as it was before, exactly when no field is an orphan and every field that only an older plan owns shows as that plan wrote it |
| `PolicyUndo.PlannedUndoRoundTrip` | go/pkg/backend/fortigate-deployment.go:411-460 | When all written fields have defaults, as in every payload of the planner, the undo passes the checks against the base, and shows the old policy again if the base owns no field beyond the payload |
| `PolicyUndo.OlderPlanFieldChanges` | go/pkg/backend/fortigate-deployment.go:411-460 | A member list that only an older plan owns, shown with a helper field, is different after write and undo |
| `DeltaPlans.GeneratePlan` | go/pkg/backend/deployment-plan.go:76-246 | For a previous revision without repeated rules error-free exactly if idle or: used contexts are declared and have targets, rules can be deployed, dropped rules can be removed, no DENY changes its match in place, and no commands conflict. Every command of an error-free plan has its reason, a rule of the next revision as rendered or a dropped rule as it was rebuilt, every such rule has its command, and the order is UPSERTs, DELETEs of ACCEPTs, DELETEs of DENYs. Such a plan takes every target that holds the base to the next revision exactly if it is not idle or both manage the same names |
| `DeltaPlans.MadePlanIsSound` | go/pkg/backend/deployment-plan.go:76-213 | The reasons, the completeness and the order of the commands of an error-free plan |
| `DeltaPlans.UnsafeDenyIs` | go/pkg/backend/deployment-plan.go:235-246 | A change is unsafe exactly if it stays a DENY and differs in a field that decides what is matched, defaults standing in for omitted fields |
| `DeltaPlans.RefusalsAreUnsafe` | go/pkg/backend/deployment-plan.go:220-246 | The in-place refusals of a plan are exactly the DENYs whose match differs from the one the previous revision alone would have planned |
| `DeltaPlans.ApprovedPayloads` | go/pkg/backend/deployment-plan.go:220-234 | What the previous revision alone would have planned, by target, context and name, deployable rules only |
| `DeltaPlans.CountUnsafeDenies` | go/pkg/backend/deployment-plan.go:235-245 | Counts no error exactly if no UPSERT changes the match of an approved DENY |
| `DeltaPlans.IdlePlanLeavesPolicy` | go/pkg/backend/deployment-plan.go:76-88 | A revision without contexts drops its rule, the plan is empty and free of errors, and the policy stays |
| `DeploymentPlanner.PlanReachesNext` | go/pkg/backend/deployment-plan.go:76-213 | On a target that holds exactly the policies of the base, applying the plan leaves exactly those of the next revision, each as rendered |
| `DeploymentPlanner.WrittenOrRemoved` | go/pkg/backend/deployment-plan.go:585-600 | No policy of a target is both written and removed |
| `DeploymentPlanner.PlanTouchesOnce` | go/pkg/backend/deployment-plan.go:585-600 | No two commands of a plan name the same policy of a target |
| `DeploymentPlanner.CountConflicts` | go/pkg/backend/deployment-plan.go:585-600 | Counts no error exactly if an object is touched twice only by a DELETE followed by an UPSERT |
| `DeploymentPlanner.FinaliseOrder` | go/pkg/backend/deployment-plan.go:287-340 | Emits the blocks of all targets bottom-up with their successors, then the DELETEs, and numbers them |
| `DeploymentPlanner.DeletesInOrder` | go/pkg/backend/deployment-plan.go:325-333 | The DELETEs are all there, ACCEPTs before DENYs and each kind by name |
| `DeploymentPlanner.OrderedFacts` | go/pkg/backend/deployment-plan.go:287-340 | Reordering keeps the commands and puts all UPSERTs before all DELETEs |
| `DeploymentPlanner.PlanUpserts` | go/pkg/backend/deployment-plan.go:76-213 | Error-free exactly if every used context is declared and has a target and its rules can be deployed there; then every target gets the policies of its contexts in reviewed order. With errors too, the commands are those of the deployable rules of declared contexts |
| `DeploymentPlanner.PlanRemovals` | go/pkg/backend/deployment-plan.go:375-446 | Error-free exactly if every removed rule has targets and can be rebuilt for all of them; then exactly the removed rules are deleted there, each with its rebuilt payload |
| `DeploymentPlanner.CollectRemoved` | go/pkg/backend/deployment-plan.go:375-446 | Collects exactly the named base rules whose key the next revision no longer has |
| `DeploymentPlanner.TargetsOfFacts` | go/pkg/backend/deployment-plan.go:623-635 | The targets of a context are exactly those that list it |
| `PolicyChains.ValidateChain` | go/pkg/backend/deployment-runtime.go:578-652 | Accepts exactly the UPSERTs that are one total order of distinct policies ending at the anchor, with falling sequence numbers |
| `PolicyChains.WalkIsChain` | go/pkg/backend/deployment-runtime.go:620-652 | A walk from the only policy nobody refers to, through all policies to the anchor, is such a chain |
| `PolicyChains.ChainFollowsWalk` | go/pkg/backend/deployment-runtime.go:620-652 | Every such chain runs along the walk |
| `PlannedChains.PlannedChainIsValid` | go/pkg/backend/deployment-plan.go:287-340 | The chain of an error-free plan is accepted by the runtime exactly if the target has nothing to write or has a usable anchor |
| `Interlock.Database.NeverTwo` | go/pkg/backend/deployment-runtime.go:865-954 | Publication and deployment never overlap, nor two of either, as long as holders finish within their lease |
| `Interlock.Database.StartDeployment` | go/pkg/backend/deployment-runtime.go:865-909 | A deployment starts exactly if its revision is the latest publication and the lock is free or expired; otherwise nothing changes |
| `Interlock.Database.FinishDeployment` | go/pkg/backend/deployment-runtime.go:1033-1063 | Records the outcome of every target of the run |
| `Interlock.Database.StartPublication` | go/pkg/backend/deployment-runtime.go:913-952 | A publication starts exactly if the lock is free or expired and every target of the latest publication that has commands and is executable is deployed; otherwise nothing changes |
| `Interlock.Database.Publish` | go/pkg/backend/deployment-runtime.go:956-1031 | When a revision is published, every executable target with commands of the previous planned revision shows a success in its newest run; this stays so for all superseded revisions |
| `Interlock.Database.Release` | go/pkg/backend/deployment-runtime.go:1065-1072 | An operation ends and gives the lock back, if the lock is still its own |
| `Interlock.NewestDecides` | go/pkg/backend/deployment-runtime.go:956-1031 | Reading all rows in stamp order and keeping the last per target says exactly that the run with the latest stamp that includes the target has succeeded |
| `Interlock.NextAfterFirst` | go/pkg/backend/deployment-runtime.go:984-1029 | Through the operations of the database: with nothing deployed the next revision is published exactly if no target with commands is executable |
| `Interlock.NextAfterRun` | go/pkg/backend/deployment-runtime.go:956-1031 | Through the operations of the database: after one run exactly if the run was for this very plan, included every executable target with commands, and succeeded |
| `Interlock.OnlyExecutableTargetsCount` | go/pkg/backend/deployment-runtime.go:984-1029 | An undeployed revision stops the next one if its target is executable, and does not if it is not |
| `Interlock.StampsMustFollowLocks` | go/pkg/backend/deployment-runtime.go:956-1031 | For every outcome of the runs the gate decides by the run that took the lock last, exactly when all other runs with the target carry earlier stamps |
| `Interlock.LateStarterIsOverlooked` | go/pkg/backend/deployment-runtime.go:865-1031 | Through the operations of the database: a run stamped early and started late fails, and the next revision is published all the same |
| `Interlock.Database.Abandon` | go/pkg/backend/deployment-runtime.go:1065-1072 | An operation ends without giving its lock back |
| `Interlock.LeftLockRunsOut` | go/pkg/backend/deployment-runtime.go:913-954 | A lock left behind stops the next publication until its lease has run out |
| `PagedReads.ReadTable` | go/pkg/backend/fortigate-deployment.go:1656-1791 | An accepted read is one table of one revision: its visible rows, each once and in order, and in complete mode none hidden and all counts consistent; every page fits the first one. It stops within the page limit, and a cooperative device is accepted, whether it tells its size, counting all matches or those of each page, or how far it has scanned |
| `PagedReads.TakePage` | go/pkg/backend/fortigate-deployment.go:1656-1791 | A page is taken exactly if limits are kept and no key is missing or repeated |
| `PagedReads.Judge` | go/pkg/backend/fortigate-deployment.go:1656-1805 | A page ends the read only if everything of the table has been read, and otherwise the next one begins where it ended |
| `PagedReads.CheckedIs` | go/pkg/backend/fortigate-deployment.go:1656-1760 | A page is let through exactly if its revision and size agree with the first page and all that is needed is there |
| `PrefixCoverage.Coverage.Contains` | go/pkg/backend/device-routing.go:1312-1321 | True exactly if every address of the prefix lies in the union of all prefixes added |
| `PrefixCoverage.Coverage.Add` | go/pkg/backend/device-routing.go:1323-1339 | Adds a prefix and folds siblings; the union grows by it and ancestors alone keep deciding coverage |
| `PrefixCoverage.AncestorsDecide` | go/pkg/backend/device-routing.go:1303-1355 | In a folded index a prefix is covered address by address exactly if it or an ancestor is an entry |
| `PrefixCoverage.WithinIs` | go/pkg/backend/device-routing.go:1357-1362 | A prefix lies within another exactly if it has the same width and begins with its bits |
| `DeviceRoutes.EffectiveRoutes` | go/pkg/backend/device-routing.go:1274-1301 | Exactly the routes of the VRF that are a longest match for some address of the network, all equal alternatives included, in sorted order |
| `DeviceRoutes.DirectRoutes` | go/pkg/backend/device-routing.go:1230-1263 | Complete exactly if every address of the network has a longest match and all its longest matches are direct and no blackholes, early return included |
| `DeviceRoutes.GroupIsEffective` | go/pkg/backend/device-routing.go:1274-1301 | A group of equal prefixes holds a longest match exactly if its part of the network is not covered by the longer ones |
| `DeviceRoutes.CoverageDecides` | go/pkg/backend/device-routing.go:1230-1263 | When every effective route is direct, coverage of the network alone decides |
| `RoutePaths.DerivePath` | go/pkg/backend/device-routing.go:329-504 | Empty exactly without devices. An end with several owners is Ambiguous, one with none is Partial if a device is offline and NotFound otherwise, the source first. With both owners the hops are the walk between them and the answer is how it ends: at the destination, in a loop, or at a device whose routes lead to no single next one. Complete exactly if a path exists, and then the hops are that path; the revisit check and the final fallback are never reached |
| `RoutePaths.PathForwardsEveryAddress` | go/pkg/backend/device-routing.go:329-504 | On a complete path every longest match for every destination address at a hop has its gateway on the next hop, over a link with exactly two participants |
| `RoutePaths.WalksAreShort` | go/pkg/backend/device-routing.go:329-504 | A walk of distinct devices is no longer than there are devices |
| `RoutePaths.NextDevice` | go/pkg/backend/device-routing.go:400-504 | The one device that all effective routes hand the destination to; if there is none, the answer names the reason: no route or a blackhole, a route without gateway, or the first route whose gateway is off-link, on a crowded link, owned by nobody or by several, or routes that part |
| `RoutePaths.GatewayOwners` | go/pkg/backend/device-routing.go:554-592 | Exactly the other online devices that carry the gateway address on a link shared with this one |
| `RoutePaths.SharedLinks` | go/pkg/backend/device-routing.go:554-617 | Distinguishes a shared link of two participants from links with more |
| `RoutePaths.EndpointCandidates` | go/pkg/backend/device-routing.go:506-514 | Exactly the online devices to which the network is directly connected |
| `JsonPointers.SegmentDecodes` | go/pkg/backend/admin.go:1090-1092 | Every pointer segment decodes back to its key, as in sections 3 and 4 of RFC 6901 |
| `JsonPointers.DecimalsApart` | go/pkg/backend/admin.go:1121-1133 | Different list positions have different segments |
| `JsonPointers.DecimalIs` | go/pkg/backend/admin.go:1121-1133 | The segment of a list position is its number in decimal digits without leading zeros |
| `JsonPointers.ChildrenApart` | go/pkg/backend/admin.go:1090-1141 | Different segments lead to different places |
| `StructuredDiff.Diff` | go/pkg/backend/admin.go:1094-1141 | The reported changes turn the old value into the new one up to absent and null, reversed they turn it back; each shows what its path points at in both; no path extends or repeats another; nothing is reported exactly for values that differ in nulls only |
| `StructuredDiff.Differ.Walk` | go/pkg/backend/admin.go:1094-1141 | The recursive walk appends exactly the listed changes, keys in sorted order |
| `StructuredDiff.DiffIsPatch` | go/pkg/backend/admin.go:1094-1141 | Applying the reported changes to the old value gives the new one up to absent and null |
| `StructuredDiff.PathsApart` | go/pkg/backend/admin.go:1094-1141 | Reported paths lie below the starting path, and none is or extends another |
| `StructuredDiff.NothingToReport` | go/pkg/backend/admin.go:1094-1141 | No change is reported exactly if the values are equal up to absent and null |
| `StructuredDiff.DiffBackwards` | go/pkg/backend/admin.go:1094-1141 | Exchanging the two values exchanges before and after in every change |
| `StructuredDiff.ChangesAreShown` | go/pkg/backend/admin.go:1094-1141 | Every change shows what its path, read as a JSON pointer, points at in both values; the two differ and are not both objects or both lists |
| `StructuredDiff.SortedNamesFacts` | go/pkg/backend/admin.go:1104-1115 | The keys of both objects, each once, in ascending order |
| `Accounts.NormalizeCatalog` | go/pkg/backend/accounts.go:97-160 | Accepts exactly the lists whose entries all have a stored form, with distinct addresses and directory ids and, if asked for, a privileged account; the result is sorted by address and has the same accounts |
| `Texts.TextLessIs` | go/pkg/backend/accounts.go:157-158 | Texts are ordered by the first place where they differ; a text comes before its extensions |
| `Texts.TrimIs` | go/pkg/backend/accounts.go:97-125 | Trimming cuts off all the spaces at both ends and nothing else |
| `Texts.LowerIs` | go/pkg/backend/accounts.go:97-125 | Lower case turns the capital letters of ASCII into small ones and nothing else |
| `Accounts.StoredIsNormal` | go/pkg/backend/accounts.go:97-160 | A stored account is its own stored form |
| `Accounts.NormalIsStored` | go/pkg/backend/accounts.go:97-160 | What normalizing yields is fit to be stored |
| `Accounts.NormalIs` | go/pkg/backend/accounts.go:97-160 | Normalizing yields exactly the stored row that shows the input, with the defaults for a blank role or source |
| `AccountCatalogs.Catalog.Seed` | go/pkg/backend/accounts.go:269-293 | Setup succeeds exactly on an empty catalog with an acceptable list, and leaves a privileged account |
| `AccountCatalogs.Catalog.Begin` | go/pkg/backend/accounts.go:295-321 | Refuses exactly a version that is not the current one or an actor without an active privileged account |
| `AccountCatalogs.Catalog.Create` | go/pkg/backend/accounts.go:378-427 | Succeeds exactly for the current version, an active administrator or developer, a valid address that is free and a known role or none; the version rises by one, and the new row is local, active, at revision 1 and has the requested role, or admin if none was given |
| `AccountCatalogs.Catalog.Update` | go/pkg/backend/accounts.go:429-482 | Succeeds exactly for the current version and row revision, an active administrator or developer and a known role, if one of these remains; the row gets the requested role and the next revision, and nothing else changes |
| `AccountCatalogs.Catalog.Delete` | go/pkg/backend/accounts.go:484-548 | Succeeds exactly for the current version and row revision of a local account nobody refers to, if a privileged account remains; only that row goes |
| `AccountCatalogs.Catalog.ApplyPreview` | go/pkg/backend/accounts.go:558-636 | Succeeds exactly if the preview is applicable to the rows, its version is current and the actor authorised; otherwise nothing changes |
| `AccountCatalogs.SyncedIsOk` | go/pkg/backend/accounts.go:558-636 | An applied preview keeps addresses and directory ids unique and a privileged account; local accounts, roles and sources stay, new rows are directory accounts, and a revision rises by one exactly if its row changes |
| `AccountCatalogs.SyncSettles` | go/pkg/backend/accounts.go:584-617 | Going through the preview row by row under the unique index leaves each row settled, or is refused |
| `AccountCatalogs.SyncGetsThrough` | go/pkg/backend/accounts.go:584-617 | Going through the preview succeeds exactly if every account may be changed by a sync and, unless it stays as it is, no other row holds its directory id by then |
| `AccountCatalogs.HarmlessGetsThrough` | go/pkg/backend/accounts.go:584-617 | A preview of compatible accounts that takes no directory id from another row gets through |
| `DirectorySync.CalculatePreview` | go/pkg/backend/admin-workflow.go:495-530 | Rejected exactly if a newcomer brings an address that is taken; otherwise the preview is the catalog with listed accounts refreshed and unlisted ones switched off, followed by the newcomers, with the numbers of accounts added, updated and switched off |
| `DirectorySync.PreviewIsApplicable` | go/pkg/backend/accounts.go:558-636 | A preview is applicable to the catalog it was calculated from exactly if it has an active privileged account |
| `DirectorySync.Sync` | go/pkg/backend/admin-workflow.go:495-530 | Preview and application with nothing in between: for an authorised actor it is refused only if nobody privileged would be left |
| `PublishedServices.BuildIndex` | go/pkg/backend/fortigate-policy-scan.go:113-133 | The index shows, for every name, the last published service and all rules in published order |
| `PublishedServices.MatchMeans` | go/pkg/backend/fortigate-policy-scan.go:135-158 | A policy is matched exactly if its name points at one service up to case, and then to a service it points at |
| `PolicyInventory.Inventory.Scan` | go/pkg/backend/fortigate-policy-scan.go:486-586 | A scan is stored exactly if its identities are distinct and the device record is unchanged, and then decides every row |
| `PolicyInventory.Inventory.Reconcile` | go/pkg/backend/fortigate-policy-scan.go:332-371 | Exactly the present rows of targets that are not active become absent |
| `PolicyInventory.Inventory.Assign` | go/pkg/backend/fortigate-policy-scan.go:758-799 | Succeeds exactly for a service on offer and a present row at the revision that was seen, and names the reason otherwise; the row gets the service, manually, at the next revision, and nothing else changes |
| `PolicyInventory.OfferedIs` | go/pkg/backend/fortigate-policy-scan.go:758-799 | On offer is no service for a blank request, and otherwise the last published service with the name up to case and space |
| `PolicyInventory.ScanEvolves` | go/pkg/backend/fortigate-policy-scan.go:518-568 | The revision of a row rises by one exactly if fingerprint, service, source or presence change; other targets stay as they are |
| `PolicyInventory.ScanStores` | go/pkg/backend/fortigate-policy-scan.go:518-564 | What a scan stores about each policy it reads: its data, and as service the manual choice while that is published, and otherwise the one service that the name of the policy points at |
| `PolicyInventory.PresentAreScanned` | go/pkg/backend/fortigate-policy-scan.go:518-568 | After a scan the present rows of the target are exactly the scanned policies |
| `PolicyInventory.ManualSurvives` | go/pkg/backend/fortigate-policy-scan.go:543-549 | A manual assignment survives a scan of its policy exactly if its service is published and no later service has the same name up to case and space |
| `PolicyInventory.ManualUnknownSurvives` | go/pkg/backend/fortigate-policy-scan.go:543-549 | A manual assignment to no service survives every scan |
| `PolicyInventory.AwayKeepsAssignment` | go/pkg/backend/fortigate-policy-scan.go:565-568 | Policies that are away keep their assignment; one that was present becomes absent at the next revision |
| `PolicyInventory.CaseVariantTakesOver` | go/pkg/backend/fortigate-policy-scan.go:113-134 | With two published names that differ in case a manual assignment moves to the second |
| `PolicyInventory.StaleNeverWins` | go/pkg/backend/fortigate-policy-scan.go:758-799 | Over any run of scans, retirements and assignments, a request made for a revision whose state has changed is never current again |
| `PolicyInventory.StepKeepsAssignment` | go/pkg/backend/fortigate-policy-scan.go:332-586 | One event leaves an assignment by hand alone exactly if it is not a scan that reads the policy while the service is not published or has a later namesake up to case |
| `PolicyInventory.ManualStays` | go/pkg/backend/fortigate-policy-scan.go:332-586 | Over any run of scans, retirements and assignments to other policies, an assignment by hand stays throughout exactly if every scan that reads the policy finds its service published without a later namesake |
| `PolicyInventory.TakenOnce` | go/pkg/backend/fortigate-policy-scan.go:758-799 | Of two requests for one policy that both win in a run, the later one names a higher revision |

## Left out

- One target per deployment run; the program executes its targets one after the other and rolls them back in reverse.
- Address, service and schedule objects, policy UUIDs, and the transition of a policy between address families by DELETE and UPSERT.
- Reads that fail are treated as a stop of the run; keys that the device assigns are inputs of the model.
- `Rollbacks.RollbackRun.Rollback`: a write that fails means that the connection is gone for good; steps that fail while later ones get through are not part of this model.
- Rollbacks.RollbackRun.Rollback: its statement about intermediate tables assumes that no in-place update changes action and match of a policy so that it begins to match a packet; the program refuses the DENY to DENY case only.
- DeploymentRuns.DeploymentRun.Execute: somebody else may have changed the device before the run, not between two steps of it; each step alone is proved on any table.
- DeploymentRuns.DeploymentRun.Execute: its statement about intermediate tables makes the corresponding assumption for DENYs that become ACCEPTs.
- `Interlock.Database`: stamps and ids are numbers, so the comparison of time texts with and without fractions of a second is not part of the model; the lease is counted in the same units.
- SHA-256 and random ids are injective choices and fresh numbers; SQLite transactions are single steps; JSON encoding is a datatype.
- `Texts.Lower`: lower case is ASCII; other letters are not folded.
- `Accounts.EmailOk`: models the pattern and the length limits of addresses; the second parse by the mail library is not part of this model.
- `AccountCatalogs.Catalog`: catalogs come from setup; the one-time import of an older document, which may hold nobody privileged, is not part of this model.
- `PolicyUndo.PlannedUndoRoundTrip`: the tables of field names and defaults are parameters; that every planned field has a default is a requirement.
- `AccountCatalogs.Catalog.Delete`: the policy documents that name an account are a parameter.
- `PolicyInventory.Inventory.Scan`: counts of unknown policies, time stamps and the scan state table are display data.
- `PagedReads.ReadTable`: result maps without an order of their own are not part of the model; rows arrive as a list.
- `DeltaPlans.GeneratePlan`: objects and services, endpoint summaries, command previews and the limits of a single rule are reduced to whether a rule is deployable and how it is rendered.
- HTTP, sessions, mail, LDAP and TLS, file export, FortiManager, drift display, the ExtJS client.
