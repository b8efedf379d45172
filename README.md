# Hardware-manager plugin: node allocation and the NodePool state machine

This project models the node-allocation core of a hardware-manager plugin for O-RAN O2IMS
and proves properties of it in Dafny. The plugin keeps its inventory in the `nodelist` config map.
That map holds two documents:

- `hwprofiles`, the catalog: each hardware profile is a name with an ordered list of node names.
- `allocated`, the allocation record: a list of clouds. Each cloud is a `cloudID` with a map from
  group name to the ordered list of node names assigned to that group.

A NodePool asks for a number of nodes per group, each group drawn from a hardware profile. The
NodePool reconciler reads the pool's status conditions and picks an action:

- *create*: the admission check;
- *processing*: allocate more nodes;
- *noop*: do nothing.

For each node it assigns, the hardware-manager service writes the record and creates a Node object.

Modules, one concept each:

- `Wrappers`: `Option`.
- `Errors`: the errors the service and the handlers return, with their message text.
- `Inventory`: the catalog and the record, the set of nodes in use and the free-node resolver, with its properties.
- `Sorting`: Go's string order and a sort function standing for `slices.Sort`.
- `Engine`: the service's operations `GetCurrentResources`, `CreateNodePool`, `AllocateNode`, `IsNodeFullyAllocated` and `CheckNodePoolProgress` as functions from one state of the config map and Node objects to the next, plus the pieces of `ReleaseNodePool` (`RemoveAt`). `ReleaseNodePool`, `GetAllocatedNodes`, `CreateNode`, `DeleteNode` and `UpdateConfigMap` have no function of their own here. These functions carry the lemmas:
  - no double allocation is preserved;
  - satisfied groups are untouched;
  - entries are isolated;
  - the full-allocation check and release are correct.
- `HwMgr`: the service as a class whose fields are that state. Its methods are the Go loops:
  - `GetCurrentResources`, `CreateNodePool`, `AllocateNode` (with its loop body `AllocateGroup`), `IsNodeFullyAllocated` and `CheckNodePoolProgress` are each proved equal to their `Engine` function;
  - `CreateNode`, `DeleteNode`, `DeleteNodes`, `DeleteCloudNodes`, `UpdateConfigMap`, `GetAllocatedNodes` and `ReleaseNodePool` state their effect on the state directly in their postconditions.
- `Conditions`: the condition list for one NodePool, with find-by-type and set-by-type.
- `NodePoolController`: the pieces of the NodePool reconciler:
  - `determineAction`;
  - the requeue helpers;
  - the create, processing and dispatch handlers as functions, with lemmas about the pool's life;
  - a reconciler class whose methods are proved equal to those functions.

API calls are modelled as a fault oracle. The service state carries a call counter `calls` and a fixed set `failAt` of call numbers.

- Every call to the API server uses up one number, and that call fails exactly when its number is in `failAt`. The calls are: reading the config map, updating it, creating a Node and deleting a Node.
- Creating a Node whose name already exists fails (AlreadyExists).
- Deleting a Node that does not exist fails (NotFound).
- The NodePool status update is a boolean parameter.
- Fetching the NodePool in `Reconcile` is a three-way outcome: found, not found, or failed.

`AllocateNode` is specified in two parts:

- `PlanAllocation` is a pure plan: for each group, in order, the node it would pick. It is computed against the record as it grows within the call.
- `Execute` carries out that plan with its I/O: for each pick, a record write and then a Node create.

`Engine.FinishStep` proves this split equal to Go's interleaved loop, and `HwMgr.HwMgrService.AllocateNode` is proved equal to the whole.

Three behaviours of the code are proved as lemmas:

- **A pool whose groups all have size zero and that has no record entry is never reported full.** A cloud without an entry is "not full", and allocating nothing writes nothing. This is `Engine.ZeroSizePoolNeverFull`.
- **A processing pool never reaches Provisioned.** The processing handler never sets `Provisioned`, so the pool's persisted conditions never change and it is dispatched to the processing handler on every reconcile. Each such reconcile whose progress check succeeds requeues after 15 s; one whose progress check fails returns the error and asks for no requeue (the controller runtime then retries with its own backoff). This is `NodePoolController.ProcessingNeverEnds`, `NodePoolController.ProcessingAlwaysRequeues` and `NodePoolController.ProcessingResult`.
- **A NodePool whose status update fails is still new.** Each reconcile starts from the NodePool as persisted. When the status update after admission fails, nothing is persisted, so the next reconcile runs the admission check again. This is `NodePoolController.UnpersistedPoolStaysNew` and `NodePoolController.NewPoolLifecycle`.

Four facts about the code that the model keeps as they are:

- **Deleting an absent Node fails.** `DeleteNode` returns the NotFound error of the client for a Node that does not exist; it is not treated as success.
- **Nodes per allocation call.** `AllocateNode` assigns up to one node per short group per call, not one node per call (`Engine.PlanAllocation` picks at most one node per group).
- **Calls from `CheckNodePoolProgress`.** When the pool is not full, it calls `AllocateNode` once per group.
- **No drift repair.** Nothing re-creates a missing Node object from the record, so the model does not either.

## Model

| member | source | states |
|---|---|---|
| Engine.Resources | internal/service/hwmgr.go:121-143 | reading resources succeeds exactly when the config-map get succeeds and `hwprofiles` parses; the catalog is returned as parsed; a parsed `allocated` record is returned unchanged, and a missing or unparsable one is read as an empty record |
| Inventory.FreeIn | internal/service/hwmgr.go:54-64 | the walk over the profiles that collects the nodes not in use; it has no contract of its own, and its meaning is stated by `Inventory.FreeInIsUnusedDeclared` |
| Inventory.FreeNodes | internal/service/hwmgr.go:44-64 | the free nodes of a profile given the record; it has no contract of its own, and its meaning is stated by `Inventory.FreeNodesMember`, `Inventory.FreeNodesInDeclaredOrder` and `Inventory.FirstFreeIsLowestUnused` |
| Inventory.FreeNodesMember | internal/service/hwmgr.go:44-64 | a node is free for a profile exactly when some profile of that name declares it and no group of any cloud lists it |
| Inventory.FreeNodesInDeclaredOrder | internal/service/hwmgr.go:54-64 | the free nodes are a subsequence of the declared nodes of that profile, in declared order |
| Inventory.FreeInIsUnusedDeclared | internal/service/hwmgr.go:54-64 | walking the profiles is the same as filtering the in-use nodes out of all the profile's declared nodes |
| Inventory.FreeNodesOfUnknownProfile | internal/service/hwmgr.go:54-57 | a name no profile carries has no free nodes |
| Inventory.FreeNodesAppendProfile | internal/service/hwmgr.go:54-64 | profiles sharing a name contribute their free nodes one after the other, in catalog order |
| Inventory.FirstFreeIsLowestUnused | internal/service/hwmgr.go:59-62 | the first free node is the lowest-position declared node that is not in use (the choice is deterministic) |
| Inventory.InUseSnoc | internal/service/hwmgr.go:45-52 | the in-use set of a record is the union of every cloud's listed nodes, built one cloud at a time |
| Inventory.UnusedIsSubsequence | internal/service/hwmgr.go:59-63 | filtering keeps the remaining elements in order |
| HwMgr.GetFreeNodesInProfile | internal/service/hwmgr.go:44-67 | the nested loops that build the in-use map and then collect free nodes return exactly the free nodes of the profile |
| HwMgr.FindCloudIndex | internal/service/hwmgr.go:179-184 | the search loop finds the first cloud with the given ID, or none |
| Engine.FindCloud | internal/service/hwmgr.go:179-184 | the index found belongs to the first cloud with that ID; absence means no cloud has it |
| Engine.WithCloud | internal/service/hwmgr.go:185-189 | the record gets an empty entry for the cloud exactly when it had none, and the index found is that entry's |
| Engine.RemainingAfterAppend | internal/service/hwmgr.go:194 | `Remaining` is a group's size minus the nodes already listed for it; appending a node to a group lowers that group's remaining count by one and leaves every other group's count as it was |
| Engine.AppendNode | internal/service/hwmgr.go:208 | one node is appended to one group of one cloud; every other group and cloud is unchanged |
| Engine.AppendNodeInUse | internal/service/hwmgr.go:208 | appending a node adds exactly that node to the nodes in use |
| Engine.AppendNodeNoDouble | internal/service/hwmgr.go:201-208 | appending a node that is in use nowhere keeps every node in at most one list position |
| Engine.PlanAllocation | internal/service/hwmgr.go:192-204 | the plan of one AllocateNode call picks at most one node per group; what it picks is stated by the `Plan…` lemmas below |
| Engine.PlanPicksFirstFree | internal/service/hwmgr.go:201-208 | each pick is the first free node of its group's profile in the record that already holds the earlier picks of the same call |
| Engine.PlanSkipsSatisfied | internal/service/hwmgr.go:193-199 | a group that already has its size gets no pick and keeps its list |
| Engine.PlanWhenSatisfied | internal/service/hwmgr.go:192-199 | when every group has its size, nothing is picked and no error is raised |
| Engine.PlanShortfall | internal/service/hwmgr.go:201-204 | a capacity error names a group that is still short and whose profile has fewer free nodes than it needs |
| Engine.PlanOnePerShortGroup | internal/service/hwmgr.go:192-223 | with distinct group names and no capacity error, each short group grows by exactly one node and each satisfied group by none, and the existing list is kept as a prefix |
| Engine.PlanPreservesNoDouble | internal/service/hwmgr.go:201-208 | every prefix of the picks keeps the no-double-allocation invariant |
| Engine.PlanPickNames | internal/service/hwmgr.go:208 | every pick is for a group of the pool |
| Engine.ApplyPicksIsolation | internal/service/hwmgr.go:208 | the allocation changes only its own cloud's entry and keeps that entry's ID |
| Engine.ApplyPicksUntouched | internal/service/hwmgr.go:208 | a group that no pick names keeps its list |
| Engine.ApplyPicksSnoc | internal/service/hwmgr.go:208 | applying picks one more at a time appends that pick's node |
| Engine.Execute | internal/service/hwmgr.go:206-222 | carrying out the picks never changes the catalog and makes at most two API calls per pick; when no call fails it makes exactly two per pick (one record write, one Node create) |
| Engine.Finish | internal/service/hwmgr.go:192-223 | the rest of an AllocateNode call never changes the catalog and makes at most two API calls per group |
| Engine.AllocateNodeSpec | internal/service/hwmgr.go:167-226 | AllocateNode never changes the catalog, makes between one and 1 + 2 × (number of groups) API calls, and fails with the read error and only the read call when the config map cannot be read |
| Engine.FinishStep | internal/service/hwmgr.go:192-223 | planning and then executing equals the interleaved loop: per group, skip it, stop on shortfall, or pick, write the record and create the Node (each call may fail) |
| Engine.ExecuteIsPrefix | internal/service/hwmgr.go:206-222 | after any failure, the record persisted holds a prefix of the picks, and the Nodes created are a prefix of the picks no longer than the records written |
| Engine.ExecuteKeepsNodes | internal/service/hwmgr.go:228-253 | Nodes that existed before keep their spec, since creating an existing name fails |
| Engine.AllocateNodeWhenSatisfied | internal/service/hwmgr.go:185-199 | idempotence: a pool that has all its nodes changes nothing but the call count; an empty entry added in memory is not written |
| Engine.AllocateNodeKeepsInvariant | internal/service/hwmgr.go:167-226 | AllocateNode keeps no double allocation of the persisted record and never changes another cloud's entry |
| Engine.AllocateNodeKeepsUniqueIDs | internal/service/hwmgr.go:179-218 | AllocateNode keeps one entry per cloud ID in the persisted record |
| Engine.WithCloudNoDouble | internal/service/hwmgr.go:185-189 | adding an empty entry keeps no double allocation |
| HwMgr.HwMgrService.AllocateNode | internal/service/hwmgr.go:167-226 | the Go loop leaves the config map, the Nodes and the result equal to the plan-and-execute specification |
| HwMgr.HwMgrService.AllocateGroup | internal/service/hwmgr.go:193-222 | one pass of the group loop is one unfolding of the specification: it stops with the specification's result on an error, and otherwise leaves the rest of the loop to do the rest of the specification |
| HwMgr.HwMgrService.CreateNode | internal/service/hwmgr.go:228-253 | the Node with that name, pool, group and profile is added exactly when the call succeeds and the name is new |
| HwMgr.HwMgrService.DeleteNode | internal/service/hwmgr.go:255-273 | the Node is removed exactly when the call succeeds and the Node exists |
| HwMgr.HwMgrService.GetCurrentResources | internal/service/hwmgr.go:121-143 | one read of the config map, with the result `Resources` gives |
| HwMgr.HwMgrService.UpdateConfigMap | internal/service/hwmgr.go:215-218 | the record is replaced exactly when the update succeeds |
| Engine.FirstOversized | internal/service/hwmgr.go:157-162 | the first group that wants more nodes than its profile has free, if any |
| Engine.CreateNodePoolSpec | internal/service/hwmgr.go:145-165 | admission succeeds exactly when the read succeeds and every group's size is at most its profile's free count in the same unmodified record; it changes nothing but the call count |
| HwMgr.HwMgrService.CreateNodePool | internal/service/hwmgr.go:145-165 | the loop is equal to the admission specification |
| Engine.FirstShort | internal/service/hwmgr.go:296-304 | the first group that does not yet have its size, if any |
| Engine.FullyAllocated | internal/service/hwmgr.go:283-314 | a cloud with no entry is not full and gives no error; a pool reported with an error is not full |
| Engine.FullyAllocatedMeaning | internal/service/hwmgr.go:283-314 | true exactly when the cloud has an entry and every group has at least its size; an error exactly when the first short group has fewer free nodes than it needs |
| Engine.IsFullySpec | internal/service/hwmgr.go:275-315 | the check changes nothing but the call count; when the read fails it reports not full with the read error; a pool reported with an error is not full |
| HwMgr.HwMgrService.IsNodeFullyAllocated | internal/service/hwmgr.go:275-315 | the loop gives the full-allocation specification, changing nothing but the call count |
| HwMgr.HwMgrService.GetAllocatedNodes | internal/service/hwmgr.go:317-345 | the result is sorted and is a permutation of the requested groups' lists; it is empty and error-free when the cloud has no entry; it is an error when the read fails |
| Sorting.Sort | internal/service/hwmgr.go:343 | the result is sorted and is a permutation of the input |
| Sorting.Insert | internal/service/hwmgr.go:343 | inserting into a sorted list keeps it sorted and adds exactly that element |
| Sorting.StrLeTotal | internal/service/hwmgr.go:343 | string order is total |
| Sorting.StrLeTransitive | internal/service/hwmgr.go:343 | string order is transitive |
| Engine.AllocateTimes | internal/service/hwmgr.go:358-368 | repeated AllocateNode calls never change the catalog; without an error each call made at least one API call; an error is the allocation error wrapped |
| Engine.CheckProgressSpec | internal/service/hwmgr.go:347-371 | the progress check never changes the catalog; a pool reported full had nothing but the call count changed and no error; a pool reported with an error is not full |
| Engine.AllocateTimesKeepsInvariants | internal/service/hwmgr.go:358-368 | repeated AllocateNode calls keep no double allocation and one entry per cloud ID |
| Engine.CheckProgressKeepsInvariants | internal/service/hwmgr.go:347-371 | the progress check keeps no double allocation and one entry per cloud ID, the two facts release relies on |
| Engine.CheckProgressWhenFull | internal/service/hwmgr.go:350-356 | a pool that is already full is reported full with no change but the call count |
| Engine.AllocateTimesWhenEmpty | internal/service/hwmgr.go:358-368 | AllocateNode calls for a pool whose groups all have size zero change neither the record nor the Nodes |
| Engine.ZeroSizePoolNeverFull | internal/service/hwmgr.go:290-293 | a zero-size pool with no entry is never reported full, and the progress check writes nothing for it |
| HwMgr.HwMgrService.CheckNodePoolProgress | internal/service/hwmgr.go:347-371 | the full check and then one AllocateNode call per group are equal to the progress specification |
| Engine.RemoveAt | internal/service/hwmgr.go:406 | one entry is removed and the other clouds keep their order |
| Engine.ReleaseRemovesEntry | internal/service/hwmgr.go:385-406 | with unique cloud IDs, the released cloud no longer has an entry and the IDs stay unique |
| Engine.WithCloudKeepsUniqueIDs | internal/service/hwmgr.go:185-189 | adding an entry only for an absent ID keeps cloud IDs unique |
| Engine.ReleaseFreesNodes | internal/service/hwmgr.go:398-406 | with no double allocation, every declared node of the released cloud is free again afterwards |
| HwMgr.HwMgrService.ReleaseNodePool | internal/service/hwmgr.go:373-419 | a failed read gives the read error after one call; with no entry, a successful no-op after one call; on success, every Node of the cloud is deleted, nothing else is, exactly that entry is removed, and the calls are one read, one delete per Node of the cloud and one update; on failure, the record is unchanged, the error is a failed delete of one of the cloud's Nodes or the failed update, only Nodes of that cloud are gone, and the calls are the read, one per Node gone and the failing one; when the final update fails, every Node of the cloud is already deleted while the record still lists them, after the read, one delete per Node and the update; the release succeeds whenever no call fails, the record has no double allocation and every Node of the cloud exists |
| HwMgr.HwMgrService.DeleteCloudNodes | internal/service/hwmgr.go:398-404 | the Nodes of every group of the cloud are deleted, group by group: the names deleted are the cloud's, existed before and are all of them without an error; an error is a failed delete of one of them; one call per Node deleted plus the failing one; no error whenever no call fails, the record has no double allocation and every Node of the cloud exists |
| HwMgr.HwMgrService.DeleteNodes | internal/service/hwmgr.go:399-403 | the Nodes deleted are among the listed ones and existed before; all of them are deleted when no error occurs; an error is a failed delete of a listed name; one call per Node deleted plus the failing one; no error whenever no call fails and the listed names are distinct and all exist |
| Inventory.NoDoubleGroupFresh | internal/service/hwmgr.go:398-403 | with no double allocation, one group's list holds no name twice and no name of the cloud's other groups, so deleting group by group never deletes a name twice |
| Conditions.IndexOfType | internal/controller/hardwaremanagement/nodepool_controller.go:128-130 | the position of the first condition of a type, or none when no condition has it |
| Conditions.FindCondition | internal/controller/hardwaremanagement/nodepool_controller.go:128-130 | the condition found is the first one of the type asked for in the list; none means no condition has that type |
| Conditions.SetCondition | internal/controller/hardwaremanagement/nodepool_controller.go:167-178 | conditions of other types keep their places, every entry is either of the type set or unchanged, and at most one entry is added |
| Conditions.SetThenFind | internal/controller/hardwaremanagement/nodepool_controller.go:167-178 | after set-by-type, find-by-type returns the entry just set |
| Conditions.SetKeepsOthers | internal/controller/hardwaremanagement/nodepool_controller.go:167-178 | set-by-type does not change what is found for any other type |
| Conditions.SetLeavesExactlyOne | internal/controller/hardwaremanagement/nodepool_controller.go:167-178 | with one entry per type before, set-by-type leaves exactly one entry of that type with the given status, and still one per type |
| Conditions.IsTrueWithUniqueTypes | internal/controller/hardwaremanagement/nodepool_controller.go:128-131 | with one entry per type, the found entry is true exactly when some entry of that type is true |
| NodePoolController.DoNotRequeue | internal/controller/hardwaremanagement/nodepool_controller.go:46-48 | the result does not ask to be requeued |
| NodePoolController.RequeueWithError | internal/controller/hardwaremanagement/nodepool_controller.go:50-53 | an empty result carrying the error |
| NodePoolController.RequeueWithCustomInterval | internal/controller/hardwaremanagement/nodepool_controller.go:67-69 | requeue after the given interval; a requeue happens exactly when the interval is positive |
| NodePoolController.RequeueWithShortInterval | internal/controller/hardwaremanagement/nodepool_controller.go:63-65 | requeue after 15 s |
| NodePoolController.RequeueWithMediumInterval | internal/controller/hardwaremanagement/nodepool_controller.go:59-61 | requeue after 1 min |
| NodePoolController.RequeueWithLongInterval | internal/controller/hardwaremanagement/nodepool_controller.go:55-57 | requeue after 5 min |
| NodePoolController.DetermineAction | internal/controller/hardwaremanagement/nodepool_controller.go:122-161 | Create exactly for an empty list; Processing exactly when neither Failed nor Provisioned is true and Unprovisioned or Updating is; Noop whenever Failed or Provisioned is true |
| Errors.NatToString | internal/service/hwmgr.go:160 | the `%d` rendering is a non-empty string of decimal digits |
| Errors.NatToStringRoundTrip | internal/service/hwmgr.go:160 | reading the digits back gives the number, so the rendering is exact |
| Errors.Message | internal/service/hwmgr.go:125-415 | the texts of the `fmt.Errorf` calls at hwmgr.go:125-160, 203-221, 249, 269, 351, 365, 401 and 415 and nodepool_controller.go:183 and 192; every error other than a fetch error has a non-empty text, and a wrapping error's text ends with its cause's text, as `%w` gives |
| NodePoolController.FailedIsSticky | internal/controller/hardwaremanagement/nodepool_controller.go:128-134 | with Failed true, setting any other condition type leaves the action Noop |
| NodePoolController.ProvisionedIsSticky | internal/controller/hardwaremanagement/nodepool_controller.go:136-142 | with Provisioned true, setting any other condition type leaves the action Noop |
| NodePoolController.AfterCreate | internal/controller/hardwaremanagement/nodepool_controller.go:165-179 | a rejection sets Failed=true, reason Failed, message "Creation request failed: " followed by the error; an admission sets Unprovisioned=true, reason InProgress, message "Handling creation" |
| NodePoolController.CreateFailureIsTerminal | internal/controller/hardwaremanagement/nodepool_controller.go:165-171 | a rejected pool carries Failed=true, reason Failed, message "Creation request failed: " followed by the error, and its next action is Noop |
| NodePoolController.CreateSuccessStartsProcessing | internal/controller/hardwaremanagement/nodepool_controller.go:172-179 | an admitted pool carries Unprovisioned=true, reason InProgress, message "Handling creation", and its next action is Processing |
| NodePoolController.CreateStep | internal/controller/hardwaremanagement/nodepool_controller.go:163-187 | the create handler sets the condition for the admission outcome; if the status update succeeds it persists it and does not requeue; if the update fails it requeues after 1 min with the error |
| NodePoolController.ProcessingResult | internal/controller/hardwaremanagement/nodepool_controller.go:191-205 | a progress error gives no requeue and the error; otherwise no error, with a requeue exactly when Provisioned is not true, after 15 s |
| NodePoolController.ProcessingStep | internal/controller/hardwaremanagement/nodepool_controller.go:189-206 | one progress check; the NodePool is left unchanged |
| NodePoolController.ObjectStep | internal/controller/hardwaremanagement/nodepool_controller.go:208-223 | Create runs the create handler, Processing the processing handler, and Noop changes nothing and does not requeue |
| NodePoolController.ProcessingAlwaysRequeues | internal/controller/hardwaremanagement/nodepool_controller.go:195-205 | reached through the dispatch, the Provisioned branch cannot be taken: a successful progress check always requeues after 15 s |
| NodePoolController.Fetched | internal/controller/hardwaremanagement/nodepool_controller.go:93-94 | `Client.Get` gives the NodePool as persisted: the same name, spec and stored conditions, in-memory conditions equal to the stored ones, and no change to an object that is already in step |
| NodePoolController.Run | internal/controller/hardwaremanagement/nodepool_controller.go:88-112 | reconciles in a row, each from the persisted NodePool, never change its name, its spec or the catalog, and never lower the call count |
| NodePoolController.ProcessingNeverEnds | internal/controller/hardwaremanagement/nodepool_controller.go:189-216 | a NodePool whose persisted conditions say Processing keeps them through any number of reconciles |
| NodePoolController.FailedPoolIsIdle | internal/controller/hardwaremanagement/nodepool_controller.go:128-134 | a NodePool whose persisted conditions have Failed true is left alone by any number of reconciles: no API call, no change to what is persisted |
| NodePoolController.UnpersistedPoolStaysNew | internal/controller/hardwaremanagement/nodepool_controller.go:163-187 | while the status update keeps failing, nothing is persisted and every reconcile reads the config map once more for a new admission check, changing neither the record nor the Nodes |
| NodePoolController.NewPoolLifecycle | internal/controller/hardwaremanagement/nodepool_controller.go:88-223 | the first reconcile of a new NodePool runs admission; if its status update fails the pool is still new for the next reconcile; otherwise a rejected pool is idle forever, and an admitted one keeps Processing with unchanged persisted conditions |
| NodePoolController.NodePoolReconciler.HandleNodePoolCreate | internal/controller/hardwaremanagement/nodepool_controller.go:163-187 | the handler's effect on the service, on the NodePool and on the result is the create step |
| NodePoolController.NodePoolReconciler.HandleNodePoolProcessing | internal/controller/hardwaremanagement/nodepool_controller.go:189-206 | the handler's effect is the processing step, and it does not touch the conditions |
| NodePoolController.NodePoolReconciler.HandleNodePoolObject | internal/controller/hardwaremanagement/nodepool_controller.go:208-223 | the dispatch's effect is the object step |
| NodePoolController.NodePoolReconciler.Reconcile | internal/controller/hardwaremanagement/nodepool_controller.go:88-112 | a NodePool that is not found gives no requeue, no error and no change; a failed fetch gives no requeue and the error; a found one is reloaded with its persisted conditions and then dispatched |

## Left out

- The config-map transport:
  - YAML parsing and marshalling, and a marshalling error during a write;
  - the config-map name and the namespace, which comes from `os.Getenv`;
  - the documents are values already parsed.
- Process and timing:
  - logging;
  - the 10-second sleep at the start of `AllocateNode`;
  - the service builder and `SetupWithManager`;
  - the unused `nodes` field of the service.
- `internal/controller/utils/utils.go` is not part of this model. The status update is one call that may fail, with no retry on conflict. The helpers `SetStatusCondition` and the condition-type and reason constants live in files not part of this model:
  - set-by-type is modelled as "overwrite the entry of that type in place, else append";
  - the type and reason strings are taken as their names;
  - the transition timestamp of a condition is not modelled.
- Errors.Message: the texts of errors that the Kubernetes client returns are not modelled. A wrapped client error ends at the plugin's own prefix, and a fetch error has no text.
- Engine.AppendNode: every parsed cloud entry is taken to have a group map. Go reads an entry written without `nodegroups` (or with `nodegroups: null`) as a nil map, and appending to it at `internal/service/hwmgr.go:208` panics; the model's map cannot tell nil from empty and just adds the group, so that panic on a hand-edited entry is not modelled.
- NodePoolController.Run: the status update ends the same way on every reconcile of a run. A run where some updates fail and later ones succeed is not one `Run`; it is a composition of runs, since each step starts only from the persisted NodePool and the service state.
- Concurrency: optimistic-concurrency conflicts and parallel reconciles are left out. The model is single-threaded, and nothing else changes the config map or the Nodes between calls.
- HwMgr.HwMgrService.ReleaseNodePool: Go's map iteration order is unspecified, so groups are deleted in an arbitrary order. On a failed delete the contract says only that some subset of the cloud's Nodes is gone, and how many calls were made, not which Nodes.
- NodePoolController.NodePoolReconciler.HandleNodePoolProcessing: uses only the error outcome of `CheckNodePoolProgress`. The "full" flag it also returns is dropped, as the handler drops it.
- Sorting.Sort: orders strings by code point. Go orders UTF-8 bytes, which gives the same order on valid strings.
