# scene-polytree, modelled and proved in Dafny

scene-polytree keeps a forest of transforms for a game scene: each node has a local transform, and its world transform is
the composition of the locals from its root down. World transforms are cached. Edits mark nodes dirty; a planner expands
the dirty nodes to everything below them, and an evaluator recomputes only that. Around this engine sit a CPU task
executor for level-parallel evaluation, a motion extension that moves nodes in fixed steps, and a runtime for the O3DE
engine: instance slots, controllers with write targets, synchronisation of changed worlds, an asynchronous Prefab spawner
and Prefab topology processing.

This project models that logic and proves what it is for. `dafny verify dfyconfig.toml` checks all of it.

## How the model is organised

- **Transform engine.** `Polytree` (the frozen forest with its topological order, roots and dependency levels),
  `TransformState` (records, dirty frontier, revision clock), `Planning` and `Workspace` (cached metadata and the four
  planning branches), `ReferencePlan` (the full-scan planner the workspace must agree with), `Batches` (the counting sort
  by level), `Evaluation` (the sequential and the level-parallel evaluator), `Coherence` and `EvaluationRuns` (what every
  run keeps), `EvaluationRefinement` (the classes carry out these runs), `AuthoringScene`, `SceneFreeze` and
  `SceneRuns` (edits, incremental freezes, and whole histories of both), `EvaluationLimit` and `SceneLimit` (runs and
  histories that show the condition of the coherence theorems to be needed).
- **Executor.** `TaskExecutor` is a step relation with one program counter per thread; its theorems speak of every
  interleaving. `TaskExecutorProgress` shows that `execute` returns and the pool shuts down under every schedule, and `TaskExecutorLimit` that the
  one precondition is exact.
- **Motion.** `ActiveMotionSet` (single updates, per-record batches, and the sort/coalesce/count/merge batch) and
  `MotionAdvance` (the fixed step).
- **O3DE runtime.** `Synchronization` and `SynchronizedFrames` (frames, and what the engine shows), `Spawner` (the instance
  state machine), `SpawnerAnswers` and `SpawnerDespawns` (where each answer leads, without the handlers) and
  `SpawnerComponent` (the mutable component), `ControllerTargets`, `TargetRuns`,
  `ControllerPreparation` and `ControllerAttachment`, `PrefabTopology`, `PrefabPaths` and `EntityHierarchy`, `SlotLeases`,
  `SlotInstantiation` and `Placement`.
- **Shared.** `Sequences`, `Options`, `Names`, `Generations` and `LocalEdits`.

Objects that the program updates in place are classes here, and their methods are proved against functions of the old
state; the theorems about runs are about those functions. What these functions hold is stated apart from their bodies, in
lemmas named for it (`OperationMeans`, `FreezeKeeps`, `PreflightMeans`, `ClosingMeans` and the like). Composition, integration and the test for a stationary motion are
arbitrary functions: nothing is assumed of them, not even associativity. Revisions, generations, ticks and the executor's
cursor have their real widths, with their wrap-around or exhaustion.

## Where the code needs a condition its documentation does not state

- **Executor.** The cursor is advanced without a check, so a dispatch whose last fetches pass 2^64 would hand a chunk out
  twice. `TaskExecutor.ExecuteIsExact` holds for dispatches with (chunks + workers) * grain below 2^64, and
  `TaskExecutorLimits.HeadroomIsNeeded` gives, for every other multi-chunk dispatch to at least one worker, an interleaving
  in which two chunks overlap. The caller can compute the condition before the call.
- **Slot handles.** integrations/o3de/README.md:39-40 says stale slot handles remain invalid. Generations are 32 bits wide
  and skip zero, so a released handle resolves again exactly when its slot is reserved and has been released a multiple of
  2^32-1 times, its own release counted (`SlotLeases.HandleAfterRun`); `SlotLeases.ReleasedResolvesAgain` gives the run.
  Controller target tokens are alike (`TargetRuns.TokenAfterRun`, `TargetRuns.ReleasedLiveAgain`).
- **Plans.** docs/transforms.md:123-132 says that a plan is stale once its workspace builds another one. Epochs are 64 bits
  wide and skip zero, so exactly every 2^64-1 plans an epoch repeats (`EvaluationRuns.GenerationRepeats`). A plan borrows a
  list and a length; evaluated whole laps late on an unchanged state it passes every check and shows the beginning of some
  later plan's list, which need not be whole subtrees. Coherence therefore holds of runs that evaluate no plan a positive
  whole number of laps after it was built (`EvaluationRuns.RunCoherence`), which a caller can know by counting builds, and
  for every number of laps there is a run, and a history, in which it fails (`EvaluationLimits.TimelinessIsNeeded`,
  `SceneLimits.TimelyHistoriesAreNeeded`).

## Model

| member | source | states |
|---|---|---|
| EvaluationRuns.RunCoherence | include/scene_polytree/transform_evaluation.hpp:440-536 | Over every run of local edits, dirty marks, full and partial plans held across other operations, plans for other topologies and states on the same workspaces, and evaluations of held plans, in which no plan is evaluated a whole number of epoch laps (2^64-1 plans on its workspace) after it was built: the frontier lists exactly the dirty nodes once, every node with nothing dirty at or above it holds the world composed from its root, and a full evaluation makes that true of every node |
| EvaluationLimits.TimelinessIsNeeded | include/scene_polytree/transform_evaluation.hpp:508-519 | The lap condition is exact: for every number of laps a freshly frozen scene has a run that meets it up to its last step, which evaluates a partial plan that many laps late; every check passes, the plan shows the beginning of a later plan's list, and a node with nothing dirty at or above it keeps a wrong world |
| EvaluationRefinements.DriveRun | include/scene_polytree/transform_evaluation.hpp:502-593 | Carrying out any such run (without plans for other topologies or states, which `BuildElsewhere` covers) on the classes (transform state, workspaces, plans), serially or by a pool under any schedule, ends in exactly the state, lists and plans the run model gives; so the state then holds the recomputed world at every node with nothing dirty at or above it |
| EvaluationRefinements.EvaluatePlan | include/scene_polytree/transform_evaluation.hpp:502-593 | Evaluating a held plan, serially or by a pool, succeeds exactly when the run model evaluates it, reports the nodes the plan shows, and leaves the objects in the model's next state |
| EvaluationRefinements.BuildPlan | include/scene_polytree/transform_evaluation.hpp:310-438 | Building a full or partial plan leaves the workspace, the epoch and the held plans in the model's next state, also when the scope is refused |
| EvaluationRefinements.BuildElsewhere | include/scene_polytree/transform_evaluation.hpp:310-438 | Building a plan for another topology or another state on a workspace is one more build of that workspace and disturbs no other plan's bookkeeping; on a size mismatch it is nothing |
| EvaluationRefinements.FreshRepresents | include/scene_polytree/transform_evaluation.hpp:250-259 | A state with new workspaces and no plans is the start of a run |
| SceneRuns.HistoryCoherence | include/scene_polytree/scene_freeze.hpp:113-183 | Over every history of authoring edits, first freezes, incremental freezes of any earlier runtime and operations on every runtime, interleaved, under the same lap condition on evaluated plans: in every runtime at every moment, a node with nothing dirty at or above it holds the world recomputed from its root |
| SceneLimits.TimelyHistoriesAreNeeded | include/scene_polytree/scene_freeze.hpp:113-183 | The condition is exact for histories too: for every number of laps there is a history from the empty scene that meets it up to its last event, after which a node with nothing dirty at or above it holds a wrong world |
| SceneLimits.RunIsHistory | include/scene_polytree/scene_freeze.hpp:113-183 | Whatever can be run on a runtime can be made part of any history that has this runtime |
| Coherence.EvaluatedSound | include/scene_polytree/transform_evaluation.hpp:440-460 | Evaluating any set of dirty subtrees keeps the frontier exact and duplicate-free and the cache coherent, clears the dirty flag of exactly those subtrees, changes no local, and leaves every record outside them as it was |
| Coherence.FullEvaluation | include/scene_polytree/transform_evaluation.hpp:502-536 | After a full plan is evaluated the frontier is empty and every world is the one recomputed from the root |
| Coherence.TouchSound | include/scene_polytree/transform_state.hpp:90-126 | A local edit or dirty mark never makes a world that counts as clean wrong |
| EvaluationRuns.CurrentIsOwn | include/scene_polytree/transform_evaluation.hpp:508-519 | A plan that passes the evaluator's counter checks, and is not whole laps old, is the last one built on its workspace: its views show its own lists in full, and these are whole subtrees of roots that are dirty now |
| EvaluationRuns.GenerationRepeats | include/scene_polytree/transform_evaluation.hpp:52-56 | Two plans of one workspace carry the same epoch exactly when a multiple of 2^64-1 plans lies between them |
| EvaluationRuns.ChangesStale | include/scene_polytree/transform_evaluation.hpp:508-519 | A plan is good for one state: an accepted edit or mark, and any accepted evaluation, even of a plan without nodes, leaves no plan current that was so before |
| EvaluationRuns.BuildsStale | include/scene_polytree/transform_evaluation.hpp:508-519 | Building another plan on a workspace makes a current plan of that workspace stale, and no plan of another one |
| EvaluationRuns.AllDirtySound | include/scene_polytree/scene_freeze.hpp:113-183 | A runtime whose records are all dirty, as a first freeze leaves it, is coherent whatever its worlds hold |
| TransformStates.TransformState.constructor | include/scene_polytree/transform_state.hpp:41-50 | The initial frontier is exactly the dirty records, once each, in handle order |
| TransformStates.TransformState.SetLocal | include/scene_polytree/transform_state.hpp:90-108 | An out-of-range node, then an exhausted clock, is refused and changes nothing; otherwise the local and its revision change, and the frontier gains the node exactly if it was clean and stays exact |
| TransformStates.TransformState.MarkDirty | include/scene_polytree/transform_state.hpp:110-126 | The same errors; otherwise the node becomes dirty under a new revision with its local and local revision kept, and the frontier stays exact |
| TransformStates.TransformState.BeginEvaluation | include/scene_polytree/transform_state.hpp:150-157 | The clock moves by one exactly when there are worlds to write; the evaluation generation always moves |
| TransformStates.TransformState.CompactDirtyFrontier | include/scene_polytree/transform_state.hpp:166-170 | The frontier keeps, in place, exactly its nodes that are still dirty |
| TransformStates.TouchKeepsValid | include/scene_polytree/transform_state.hpp:90-126 | An edit adds its node to the dirty set and nothing else, and the frontier remains an exact duplicate-free list of that set |
| Workspaces.Workspace.RankPass | include/scene_polytree/transform_evaluation.hpp:69-74 | Ranks invert the topological order |
| Workspaces.Workspace.ReversePass | include/scene_polytree/transform_evaluation.hpp:75-82 | The reverse pass finds the true size and the last topological position of every subtree |
| Workspaces.Workspace.LevelPass | include/scene_polytree/transform_evaluation.hpp:83-92 | Levels are depths, and the recorded width is the size of the largest level |
| Workspaces.Workspace.CheckContiguity | include/scene_polytree/transform_evaluation.hpp:93-100 | The size check holds of all nodes exactly when every subtree is the slice of the topological order from its rank to its end |
| Planning.SizeDecidesInterval | include/scene_polytree/transform_evaluation.hpp:96-100 | A subtree fills its slice exactly when it has as many nodes as the slice is long (pigeonhole) |
| Planning.TotalsDone | include/scene_polytree/transform_evaluation.hpp:75-82 | What the reverse pass has gathered for a node at the end is the size and end of its whole subtree |
| Workspaces.Workspace.OpenEpoch | include/scene_polytree/transform_evaluation.hpp:52-56 | After opening an epoch, also across the 64-bit wrap, no stamp equals it, and it is never zero |
| Workspaces.Workspace.Prepare | include/scene_polytree/transform_evaluation.hpp:51-112 | A workspace used for another topology is rebuilt; afterwards its metadata describes this one, its lists are empty and no stamp is current |
| Workspaces.Workspace.PlanByInterval | include/scene_polytree/transform_evaluation.hpp:347-366 | The interval branch lists the topological order filtered by "dirty at or above", the dirty nodes with nothing dirty above them in order, and stamps each affected node with its one dirty root |
| Workspaces.Workspace.PlanByScan | include/scene_polytree/transform_evaluation.hpp:367-385 | The fallback branch produces the same lists, stamps and owners by one pass over the whole order |
| Workspaces.Workspace.Expand | include/scene_polytree/transform_evaluation.hpp:337-385 | Whichever of the clean, all-dirty, interval and fallback branches runs, the node list is the topological order filtered by "dirty at or above", and the roots are exactly the topmost dirty nodes |
| Workspaces.Workspace.CoverCandidate | include/scene_polytree/transform_evaluation.hpp:347-366 | Taking candidates in rank order, one that an earlier subtree covers is skipped and any other is a dirty root that brings exactly its own subtree |
| Workspaces.Workspace.SelectScope | include/scene_polytree/transform_evaluation.hpp:393-406 | A scope is accepted exactly when it is a duplicate-free list of current dirty roots |
| Workspaces.Workspace.FilterSelected | include/scene_polytree/transform_evaluation.hpp:408-422 | Filtering by selected owners leaves the selected roots and exactly their subtrees, in topological order |
| Workspaces.Workspace.MakePlan | include/scene_polytree/transform_evaluation.hpp:310-438 | A size mismatch is refused with the workspace untouched; a partial plan succeeds exactly on a duplicate-free list of dirty roots and lists exactly their subtrees in topological order; a full plan always succeeds and lists all affected nodes; the plan keeps which list it borrows, how long it is, and the counters it was built under; the workspace holds the affected nodes, and selected nodes only after a successful partial plan |
| Planning.RootsSuffice | include/scene_polytree/transform_evaluation.hpp:347-385 | The topmost dirty nodes alone affect the same nodes, in the same order, as all the dirty nodes |
| Planning.OwnerUnique | include/scene_polytree/transform_evaluation.hpp:347-385 | An affected node has only one topmost dirty node at or above it |
| Planning.OwnersSelect | include/scene_polytree/transform_evaluation.hpp:408-422 | Keeping the nodes whose owner is selected is the same as planning for the selected roots alone |
| Planning.AllDirty | include/scene_polytree/transform_evaluation.hpp:340-346 | When every node is dirty, the cached topological order and the cached root list are the plan |
| Planning.FrontierIsAll | include/scene_polytree/transform_evaluation.hpp:340-346 | An exact frontier as long as the node count names every node |
| ReferencePlans.FullScanPlan | benchmarks/performance_benchmark.cpp:521-539 | The full-scan planner lists the topological order filtered by "dirty at or above" |
| ReferencePlans.PlansAgree | benchmarks/performance_benchmark.cpp:521-539 | The incremental planner and the full-scan planner list the same nodes in the same order, for every state and every prior use of the workspace |
| Batches.DependencyBatches | include/scene_polytree/transform_evaluation.hpp:180-205 | The counting sort gives, for every level, exactly that level's nodes in their original order, consecutively, and the size of the largest batch |
| Batches.AtLevelRestricts | include/scene_polytree/transform_evaluation.hpp:180-205 | A batch is its level's part of the list, in the order of the list |
| Workspaces.Workspace.PrepareDependencyBatches | include/scene_polytree/transform_evaluation.hpp:180-205 | The same for the plan's nodes and the cached depths |
| Evaluation.PushAll | include/scene_polytree/transform_evaluation.hpp:440-460 | The evaluation sink, node by node, leaves the recomputed records |
| Evaluation.RecomputeSettles | include/scene_polytree/transform_evaluation.hpp:440-460 | In topological order the sink gives each listed node the composition of its parent's new world with its own local, a clean flag and the batch revision, and touches no other record |
| Evaluation.SettledUnique | include/scene_polytree/transform_evaluation.hpp:462-481 | Only one set of records meets that description, so the order of the writes cannot matter |
| Evaluation.Evaluate | include/scene_polytree/transform_evaluation.hpp:502-536 | A plan for another topology, a stale plan and an exhausted clock are refused in that order with nothing changed; otherwise the state is the recomputed one and the changed nodes are the plan's |
| Evaluation.RejectionMeans | include/scene_polytree/transform_evaluation.hpp:502-524 | A plan is accepted exactly when it is for this topology, all five counters and identities it was built under are what they were, and the clock has a revision if it has nodes; each refusal is given exactly when it is the first that applies |
| Evaluation.EvaluatedMeans | include/scene_polytree/transform_evaluation.hpp:502-536 | An accepted evaluation gives each of its nodes, under one new revision, its parent's new world composed with its own unchanged local, drops exactly these nodes from the frontier without reordering it, changes no other record, and always moves the evaluation generation |
| Evaluation.RunLevels | include/scene_polytree/transform_evaluation.hpp:577-584 | With a barrier after each level, any interleaving of the worker writes inside a level gives every node the world its parent's final world determines |
| Evaluation.CommittedSettles | include/scene_polytree/transform_evaluation.hpp:586-591 | The serial commit after the last level completes what the workers left to the settled outcome |
| Evaluation.EvaluateParallel | include/scene_polytree/transform_evaluation.hpp:538-593 | For every worker count, grain and schedule: the same refusals, final records, frontier, revision and changed nodes as the sequential evaluator, and the plan's own lists are left intact |
| Synchronization.ChangedNodesSince | include/scene_polytree/transform_evaluation.hpp:595-611 | The revision scan lists, in topological order, exactly the nodes whose world is newer than the given revision |
| SceneFreezes.Freeze | include/scene_polytree/scene_freeze.hpp:186-200 | A freeze fails exactly when the topology does; otherwise every record is carried over or made fresh by the dirtiness rule, on a state with exactly that frontier |
| SceneFreezes.FreezeRecords | include/scene_polytree/scene_freeze.hpp:131-170 | Every handle gets the record of its stable id, and its authoring revision is noted |
| SceneFreezes.FreezeCoherent | include/scene_polytree/scene_freeze.hpp:131-170 | Against a previous runtime of the same authoring history, the new runtime is coherent: every node whose path to the root is clean has the world a full recomputation over the new topology and the authored locals gives; and its locals are the authored ones |
| SceneFreezes.CleanSurvives | include/scene_polytree/scene_freeze.hpp:159-169 | A node that starts clean existed before, clean, with the same local, world and stable parent, however it was moved or edited in between |
| SceneFreezes.FreezeKeeps | include/scene_polytree/scene_freeze.hpp:155-169 | A surviving node is clean exactly if it was clean, neither its authored nor its runtime local has been edited since the previous freeze, and its stable parent is the same, whatever happened to handles; clean or dirty it keeps its world and world revision |
| SceneFreezes.FreezeStarts | include/scene_polytree/scene_freeze.hpp:136-154 | A node the previous runtime did not have, and every node without one, starts dirty at world revision zero with its authored local as local and world |
| SceneFreezes.FreezeClock | include/scene_polytree/scene_freeze.hpp:171-183 | The new clock is the later one of the authoring scene and the previous runtime |
| SceneFreezes.MovedFreezes | include/scene_polytree/scene_freeze.hpp:113-130 | In a freeze after a node was inserted, moved or detached, it hangs under its new parent's node, or is a root, and every other node under the parent it had |
| SceneFreezes.FoldsAgree | include/scene_polytree/scene_freeze.hpp:131-170 | Recomputed worlds are determined by the authored forest and locals, whatever the numbering of the nodes |
| SceneFreezes.FreezesAgree | include/scene_polytree/scene_freeze.hpp:131-170 | Keeping worlds is invisible: two freezes of one authoring scene, from any runtimes of its history or from none, hold the same world for every stable node once everything dirty is evaluated |
| SceneFreezes.AuthoringKeepsLink | include/scene_polytree/authoring_scene.hpp:75-81 | Authoring edits after a freeze keep every record's revision telling whether its local is still the frozen one |
| SceneFreezes.RuntimeKeepsLink | include/scene_polytree/scene_freeze.hpp:159-169 | So do runtime-only edits: an edited record carries a revision no authoring record can match |
| AuthoringScenes.AuthoringScene.constructor | include/scene_polytree/authoring_scene.hpp:82-98 | An empty scene has as many records as nodes, none, at revision zero |
| AuthoringScenes.AuthoringScene.DoInsertRoot | include/scene_polytree/authoring_scene.hpp:99-112 | A refused insertion changes nothing; an accepted one adds one root with one record at the new revision |
| AuthoringScenes.AuthoringScene.DoInsertChild | include/scene_polytree/authoring_scene.hpp:114-128 | The same for a child under its parent |
| AuthoringScenes.AuthoringScene.DoSetLocal | include/scene_polytree/authoring_scene.hpp:130-135 | An unknown node or an exhausted clock is refused; otherwise only this record changes, under the new revision |
| AuthoringScenes.AuthoringScene.DoReparent | include/scene_polytree/authoring_scene.hpp:137-154 | A move changes one parent and takes a revision, except under the parent the node already has, which leaves the scene clock alone; records keep their locals and revisions |
| AuthoringScenes.AuthoringScene.DoDetachToRoot | include/scene_polytree/authoring_scene.hpp:156-172 | The same for a detachment |
| AuthoringScenes.AuthoringScene.DoEraseSubtree | include/scene_polytree/authoring_scene.hpp:174-187 | Erasing takes out a node's subtree, exactly, with exactly its records |
| AuthoringScenes.ErasedAt | include/scene_polytree/authoring_scene.hpp:174-187 | In a forest only one set of nodes can be a node's erased subtree |
| AuthoringScenes.NextFollows | include/scene_polytree/authoring_scene.hpp:59-81 | Every operation keeps records and nodes in step, never lowers the revision, and gives a changed local a revision above all earlier ones |
| AuthoringScenes.OperationDone | include/scene_polytree/authoring_scene.hpp:99-187 | When each operation is done, when the exhausted clock stops it, and that anything else changes nothing |
| AuthoringScenes.OperationMeans | include/scene_polytree/authoring_scene.hpp:99-187 | What a done operation has changed, and nothing else: an insertion the node's parent and its record under the next revision, an edit the record, a move or detachment the one parent, with a revision exactly if the parent is another one, an erasure exactly the subtree and its records |
| TaskExecutor.ExecuteIsExact | src/cpu_task_executor.cpp:54-81 | In every interleaving of the caller and the workers, over any sequence of dispatches: when execute returns, all chunks are finished, every index below the count was in exactly one of them, no worker is inside the job, and the task count has grown by the number of chunks |
| TaskExecutor.DispatchIsSafe | src/cpu_task_executor.cpp:84-96 | At every moment of a dispatch no two threads run the same chunk, no running chunk has been finished before, and the cursor is at most count - 1 + (workers + 1) * grain |
| TaskExecutor.StepKeeps | src/cpu_task_executor.cpp:54-122 | Every single step keeps the protocol's invariant: who still owes a decrement, which chunks are claimed, running or finished, and how far the cursor may have run |
| TaskExecutor.DispatchFindsQuiet | src/cpu_task_executor.cpp:54-81 | A dispatch writes the shared job fields only when every worker is outside the previous job |
| TaskExecutor.FetchAddKept | src/cpu_task_executor.cpp:84-96 | No fetch of a dispatch with headroom wraps the cursor |
| TaskExecutor.CursorBound | src/cpu_task_executor.cpp:84-96 | The number of fetches a dispatch can make bounds the cursor |
| TaskExecutorProgress.NeverStalls | src/cpu_task_executor.cpp:54-122 | As long as the caller is inside execute, some thread can take a step, or the caller can return |
| TaskExecutorProgress.ExecuteReturns | src/cpu_task_executor.cpp:54-122 | Under every schedule a dispatch returns within four steps per chunk plus eight per worker plus a constant |
| TaskExecutorProgress.StepLowers | src/cpu_task_executor.cpp:84-122 | Every step of a dispatch other than its return lowers a measure: four for each fetch still possible plus what each thread is in the middle of |
| TaskExecutorProgress.ShutdownEnds | src/cpu_task_executor.cpp:26-38 | Once the pool is stopped only workers leaving can happen, each that is there can leave, and after as many steps as there are workers all have left, so joining them returns |
| TaskExecutorLimits.HeadroomIsNeeded | src/cpu_task_executor.cpp:84-96 | The headroom condition is exact: for every larger dispatch on at least one worker there is an interleaving of that one dispatch in which the cursor wraps and two claimed chunks share an index |
| ActiveMotionSets.ActiveMotionSet.Set | extensions/motion/include/scene_polytree/motion/active_motion_set.hpp:89-112 | An unknown handle is refused; a stationary state removes the node, a moving one records it, and the generation moves unless a stationary state met no record; records stay ascending and moving |
| ActiveMotionSets.ActiveMotionSet.Deactivate | extensions/motion/include/scene_polytree/motion/active_motion_set.hpp:114-124 | Removes the node if it moves; the generation moves exactly then |
| ActiveMotionSets.ActiveMotionSet.ApplyEach | extensions/motion/include/scene_polytree/motion/active_motion_set.hpp:130-142 | All handles are checked before anything changes; then the records are those of setting the updates in order, and the generation counts the updates that changed something |
| ActiveMotionSets.ActiveMotionSet.ApplyBatch | extensions/motion/include/scene_polytree/motion/active_motion_set.hpp:148-250 | The sort, coalesce, count and merge batch leaves the records of setting the updates in order, reserves exactly their number, and moves the generation by one exactly when some node's last update is moving or hits a record |
| ActiveMotionSets.ActiveMotionSet.Clear | extensions/motion/include/scene_polytree/motion/active_motion_set.hpp:252-257 | Empties the set; the generation moves exactly if it was not empty |
| ActiveMotionSets.Normalize | extensions/motion/include/scene_polytree/motion/active_motion_set.hpp:160-176 | Sorting later updates first and keeping the first of each node is last-write-wins, in ascending order |
| ActiveMotionSets.CountMerged | extensions/motion/include/scene_polytree/motion/active_motion_set.hpp:182-206 | The counting pass finds the exact number of records the merge will hold |
| ActiveMotionSets.MergeUpdates | extensions/motion/include/scene_polytree/motion/active_motion_set.hpp:208-239 | The merging pass yields ascending records that mean what setting all the updates means |
| ActiveMotionSets.BatchesAgree | extensions/motion/include/scene_polytree/motion/active_motion_set.hpp:148-250 | Two sets with the same updates, one batched and one not, hold the same list of records |
| ActiveMotionSets.SetAllAt | extensions/motion/include/scene_polytree/motion/active_motion_set.hpp:160-176 | What a list of updates does to a node is what its last update does |
| ActiveMotionSets.BatchMovesLess | extensions/motion/include/scene_polytree/motion/active_motion_set.hpp:241-248 | If the batch moves the generation, setting the updates one by one moves it too |
| ActiveMotionSets.LowerBound | extensions/motion/include/scene_polytree/motion/active_motion_set.hpp:260-262 | The binary search splits the records at the handle |
| MotionAdvance.Advance | extensions/motion/include/scene_polytree/motion/motion_evaluation.hpp:121-220 | A step either fails in the preflight, for the first failing reason, with transforms, workspace and tick untouched, or completes, exactly when time moves forward, the tick is not used up, motions, sizes and handles fit, and the clock has a revision per moving node plus one when anything is dirty or moving: every later failure branch is unreachable |
| MotionAdvance.PreflightMeans | extensions/motion/include/scene_polytree/motion/motion_evaluation.hpp:128-165 | Each refusal of the preflight is given exactly when it applies and none before it does |
| MotionAdvance.Carry | extensions/motion/include/scene_polytree/motion/motion_evaluation.hpp:167-219 | Past the handle checks a step completes exactly when the clock has a revision for every moving node and one for the worlds; so the preflight's arithmetic is what completion needs |
| MotionAdvance.AdvancedMeans | extensions/motion/include/scene_polytree/motion/motion_evaluation.hpp:167-219 | A completed step gives moving nodes integrate(old local), leaves the other locals, makes every world the recomputed one, and takes one revision per moving node plus one, or none when nothing moves and nothing was dirty |
| MotionAdvance.WorkIff | extensions/motion/include/scene_polytree/motion/motion_evaluation.hpp:150-165 | There are worlds to write exactly when something was dirty or is moving |
| MotionAdvance.ApplyLocals | extensions/motion/include/scene_polytree/motion/motion_evaluation.hpp:83-96 | The second phase writes the prepared locals in order and stops at the first refusal, reporting it |
| MotionAdvance.Integrate | extensions/motion/include/scene_polytree/motion/motion_evaluation.hpp:167-180 | Integration reads the old locals only, so the order of the moving nodes does not matter |
| MotionAdvance.PlanAndEvaluate | extensions/motion/include/scene_polytree/motion/motion_evaluation.hpp:194-211 | Planning and evaluating a state fails only on a size mismatch or an exhausted clock, with nothing changed |
| MotionAdvance.AdvanceIsRun | extensions/motion/include/scene_polytree/motion/motion_evaluation.hpp:121-220 | A completed step is a run of single edits, one plan and its evaluation, so what holds over all runs holds of stepping scenes |
| MotionAdvance.FixedStepSequence.Complete | extensions/motion/include/scene_polytree/motion/fixed_step.hpp:36-38 | The tick moves by one |
| Synchronization.SceneSynchronizer.Synchronize | integrations/o3de/Code/Source/SceneInstance.cpp:816-836 | Whichever way the nodes are collected, the writer gets exactly the bound nodes the revision scan finds since the last synchronisation, in topological order, each with its world placed for its entity; the direct batch then starts over |
| Synchronization.SceneSynchronizer.CollectChanged | integrations/o3de/Code/Source/SceneInstance.cpp:816-826 | While the direct batch is valid, its rank-sorted list is the very list the revision scan gives |
| Synchronization.SortedIsScan | integrations/o3de/Code/Source/SceneInstance.cpp:816-826 | A duplicate-free batch sorted by rank is the topological order filtered by it |
| Synchronization.SceneSynchronizer.QueueEvaluated | integrations/o3de/Code/Source/SceneInstance.cpp:798-805 | Stamping adds each evaluated node once |
| Synchronization.SceneSynchronizer.ResetEvaluatedBatch | integrations/o3de/Code/Source/SceneInstance.cpp:807-814 | The new batch is empty and no stamp, also across the epoch's wrap, counts for it |
| Synchronization.SceneSynchronizer.EvaluateDirty | integrations/o3de/Code/Source/SceneInstance.cpp:780-796 | Everything dirty is evaluated, or the clock is used up, nothing changes and the direct batch becomes invalid; the batch still matches the scan |
| Synchronization.SceneSynchronizer.AdvanceStep | integrations/o3de/Code/Source/SceneInstance.cpp:725-737 | A step completes, exactly when nothing of the preflight stands against it, or changes nothing and invalidates the direct batch; the batch still matches the scan |
| Synchronization.SceneSynchronizer.CorrectLocal | integrations/o3de/Code/Source/SceneInstance.cpp:682-686 | Correcting a resolved node is one local edit, invisible to both ways of collecting |
| Synchronization.SceneSynchronizer.CountSteps | integrations/o3de/Code/Source/SceneInstance.cpp:710-721 | Time beyond the configured backlog is dropped, and the rest holds exactly the counted whole steps and less than one more |
| Synchronization.SceneSynchronizer.RunControllers | integrations/o3de/Code/Source/SceneInstance.cpp:725-729 | What the controllers command before a step is written local by local, each allowed to fail, and motion by motion as one batch; the direct batch still matches the scan |
| Synchronization.SceneSynchronizer.AdvanceFrame | integrations/o3de/Code/Source/SceneInstance.cpp:704-744 | A frame runs the counted steps, each after arbitrary controller commands, or one evaluation when it runs none and something is dirty; the state after every step is the one the commands and the step determine; it keeps the remaining time and synchronises exactly what the revision scan finds |
| Synchronization.FrameSettles | integrations/o3de/Code/Source/SceneInstance.cpp:722-737 | Whatever the controllers command, the scene stays coherent through a frame, a step is taken exactly when the preflight finds nothing against it, and a step that is taken leaves nothing dirty and every world the recomputed one |
| Synchronization.RefreshSettles | integrations/o3de/Code/Source/SceneInstance.cpp:739-742 | So does the evaluation of a frame without steps while the clock lasts; afterwards it changes nothing |
| SynchronizedFrames.FrameCompletes | integrations/o3de/Code/Source/SceneInstance.cpp:722-737 | With room in the tick and the clock for every step, its commands and its moving nodes, a frame takes all its steps, whatever the controllers command, and the scene is up to date after each |
| SynchronizedFrames.FrameMirrors | integrations/o3de/Code/Source/SceneInstance.cpp:704-744 | From frame to frame, with no entity bound to two nodes, the entities show every world evaluated so far; so after a frame that leaves the scene up to date every bound entity shows the world recomputed from its root, placed for it |
| SynchronizedFrames.WritesMirror | integrations/o3de/Code/Source/SceneInstance.cpp:816-836 | Writing only what changed since the last synchronisation makes every evaluated world visible |
| SynchronizedFrames.CommandedLast | integrations/o3de/Code/Source/SceneInstance.cpp:1014-1037 | A batch of motion commands leaves a node with the last command for it, with nothing if that one is stationary, and with what it had if there is none |
| Synchronization.SceneSynchronizer.constructor | integrations/o3de/Code/Source/SceneInstance.cpp:210-222 | A new scene has topological ranks, an empty valid batch and nothing to synchronise |
| Synchronization.EvaluationStamps | include/scene_polytree/transform_evaluation.hpp:440-460 | An evaluation makes exactly its own nodes newer than any earlier revision |
| Spawners.OutcomesAreUnique | integrations/o3de/Code/Source/ScenePolytreeSpawnerComponent.cpp:564-1202 | Over all interleavings of requests, cancellations, callbacks, late, repeated or missing completions and command results: every settled spawn or despawn request has been told exactly one outcome, every open one none, and no cancelled request has succeeded |
| Spawners.CancelExcludesSuccess | integrations/o3de/Code/Source/ScenePolytreeSpawnerComponent.cpp:609-618 | If a cancellation is granted at any point of a run, that request succeeds at no point of it |
| Spawners.AnswerDescends | integrations/o3de/Code/Source/ScenePolytreeSpawnerComponent.cpp:829-1154 | When the environment answers a record's outstanding operation, the record is gone or strictly closer to its end |
| Spawners.OneOutstanding | integrations/o3de/Code/Source/ScenePolytreeSpawnerComponent.cpp:281-312 | A record at rest is active or waits for exactly one operation, which no other record waits for |
| Spawners.RunKeeps | integrations/o3de/Code/Source/ScenePolytreeSpawnerComponent.cpp:564-1202 | Every reachable component is sane: records fit their phases, leases, commands and despawn requests are never shared, and only committed spawns get past the entity spawn |
| Spawners.CommandMoves | integrations/o3de/Code/Source/ScenePolytreeSpawnerComponent.cpp:1069-1154 | Every command result moves its record down the ranking or out, telling the spawn outcome exactly when it is decided and the despawn outcome exactly when the record goes |
| Spawners.CollectedMoves | integrations/o3de/Code/Source/ScenePolytreeSpawnerComponent.cpp:829-850 | The same for a spawn completion; a failed one never counts as past the boundary |
| Spawners.DespawnedMoves | integrations/o3de/Code/Source/ScenePolytreeSpawnerComponent.cpp:1006-1017 | The same for an entity despawn completion |
| Spawners.DespawnMoves | integrations/o3de/Code/Source/ScenePolytreeSpawnerComponent.cpp:579-607 | The same for an accepted despawn request of an active record |
| SpawnerAnswers.ClosingMeans | integrations/o3de/Code/Source/ScenePolytreeSpawnerComponent.cpp:1121-1153 | On the way out no stop is skipped: after a backward result the record waits at the first of unbinding, entity despawn (with a valid ticket and the service there), cleanup and release below its phase that is open, and is gone when none is; troubles on the way are recorded by cause and reported once, at the end |
| SpawnerAnswers.DespawnMeans | integrations/o3de/Code/Source/ScenePolytreeSpawnerComponent.cpp:579-607 | An accepted despawn request first has the controllers detached, if there are any and the detachment is accepted, and otherwise goes on to the unbinding, with the refusal recorded |
| SpawnerAnswers.DespawnedMeans | integrations/o3de/Code/Source/ScenePolytreeSpawnerComponent.cpp:1006-1017 | After the entities are despawned the cleanup follows, without their ticket |
| SpawnerAnswers.OpeningMeans | integrations/o3de/Code/Source/ScenePolytreeSpawnerComponent.cpp:1077-1120 | On the way in a failed command, a cancellation seen after the reset or the placement, a missing service, an invalid ticket and a refused submission end the spawn, each with its own error and result; otherwise exactly the next phase is entered |
| SpawnerAnswers.CollectedMeans | integrations/o3de/Code/Source/ScenePolytreeSpawnerComponent.cpp:829-850 | A completed entity spawn with an error ends the spawn with that error and its result code; without one the entities are bound |
| SpawnerAnswers.SpawnRequestMeans | integrations/o3de/Code/Source/ScenePolytreeSpawnerComponent.cpp:691-733 | A spawn request gets the first reason against it, at once, or a record under the leased slot whose reset is under way or that is failing because the reset was refused |
| SpawnerAnswers.DespawnRequestMeans | integrations/o3de/Code/Source/ScenePolytreeSpawnerComponent.cpp:579-607 | A despawn request gets the first reason against it, or the one active record of its lease |
| SpawnerAnswers.CancelMeans | integrations/o3de/Code/Source/ScenePolytreeSpawnerComponent.cpp:609-618 | A granted cancellation wins an open boundary of a record neither active nor failing, and changes nothing else |
| SpawnerAnswers.PrepareMeans | integrations/o3de/Code/Source/ScenePolytreeSpawnerComponent.cpp:66-76 | The callback before insertion commits an open boundary and notes the whole hierarchy or the first problem; any other changes nothing |
| SpawnerAnswers.CollectMeans | integrations/o3de/Code/Source/ScenePolytreeSpawnerComponent.cpp:139-170 | A completion reports success exactly for a spawn that is not cancelled, without a problem before or after insertion, whose whole hierarchy was prepared; otherwise the first trouble |
| SpawnerAnswers.CompletionsReach | integrations/o3de/Code/Source/ScenePolytreeSpawnerComponent.cpp:829-1017 | A completion reaches the record that waits for it under its generation and ticket, and nobody otherwise |
| SpawnerAnswers.ResultReaches | integrations/o3de/Code/Source/ScenePolytreeSpawnerComponent.cpp:1069-1076 | A command result reaches the record that waits for this command of this type, and only a started entity spawn tells its callbacks its ticket |
| SpawnerAnswers.ResultIgnored | integrations/o3de/Code/Source/ScenePolytreeSpawnerComponent.cpp:1069-1076 | A result nobody waits for changes nothing |
| SpawnerDespawns.SuccessDespawnsEntities | integrations/o3de/Code/Source/ScenePolytreeSpawnerComponent.cpp:579-1202 | Over every run: an owner is told that a despawn succeeded only after the entities of its instance were despawned, with a completion that was waited for and came under their own ticket |
| SpawnerComponents.Spawner.RequestSpawn | integrations/o3de/Code/Source/ScenePolytreeSpawnerComponent.cpp:691-733 | Request ids are handed out in order; a refused request is told why at once, an accepted one leaves a record waiting or already failing |
| SpawnerComponents.Spawner.RequestDespawn | integrations/o3de/Code/Source/ScenePolytreeSpawnerComponent.cpp:579-607 | A closed component, a stale handle and an inactive instance are refused in that order; otherwise the active record takes the request up |
| SpawnerComponents.Spawner.CancelSpawn | integrations/o3de/Code/Source/ScenePolytreeSpawnerComponent.cpp:609-618 | Granted exactly while the record is neither active nor failing and the boundary is still open; a granted request has not succeeded |
| SpawnerComponents.Spawner.PreparePrefabInstance | integrations/o3de/Code/Source/ScenePolytreeSpawnerComponent.cpp:66-76 | The pre-insertion callback wins the boundary once or does nothing |
| SpawnerComponents.Spawner.CollectPrefabBindings | integrations/o3de/Code/Source/ScenePolytreeSpawnerComponent.cpp:139-170 | The completion callback reports a cancellation before a preparation error before missing entities before a size mismatch before what it finds itself |
| SpawnerComponents.Spawner.OnScenePolytreeCommandCompleted | integrations/o3de/Code/Source/ScenePolytreeSpawnerComponent.cpp:1069-1154 | Only the record waiting for this command, of this type, moves; everything else is left alone |
| SpawnerComponents.Spawner.OnScenePolytreeSpawnCompleted | integrations/o3de/Code/Source/ScenePolytreeSpawnerComponent.cpp:829-850 | Only a spawning record with this generation and ticket moves |
| SpawnerComponents.Spawner.OnScenePolytreeDespawnCompleted | integrations/o3de/Code/Source/ScenePolytreeSpawnerComponent.cpp:1006-1017 | Only a record despawning this ticket moves |
| SpawnerComponents.Spawner.HandleOpening | integrations/o3de/Code/Source/ScenePolytreeSpawnerComponent.cpp:1077-1120 | A result on the way in brings the record closer to its end or removes it with its one failure notice, tells success exactly when the record becomes active, touches no other record, and blames a failed command by its result under the name the owner knows |
| SpawnerComponents.Spawner.HandleClosing | integrations/o3de/Code/Source/ScenePolytreeSpawnerComponent.cpp:1121-1153 | A result on the way out, good or bad, brings the record closer to its end in silence, waiting at the first stop that is open, or with none open removes it and tells the one outcome it still owes |
| SpawnerComponents.Spawner.FinishRelease | integrations/o3de/Code/Source/ScenePolytreeSpawnerComponent.cpp:1156-1191 | The record goes; its owner is told a spawn failure if the spawn had failed, and otherwise the despawn outcome, which is success exactly when the release and everything before it went well |
| ControllerTargets.WritesExclusive | integrations/o3de/Code/Source/SceneInstance.cpp:947-996 | At most one active target may write a node |
| ControllerTargets.OwnersDetermined | integrations/o3de/Code/Source/SceneInstance.cpp:947-996 | The owner table is a function of the live targets |
| ControllerTargets.TargetTable.Allocate | integrations/o3de/Code/Source/SceneInstance.cpp:947-975 | A new token, unlike any live one, for a fresh record at the last free index or a new one; a write target becomes its node's owner; free list and owner table stay exact |
| ControllerTargets.TargetTable.Release | integrations/o3de/Code/Source/SceneInstance.cpp:977-996 | A live token dies, its index becomes free under the next nonzero generation and its node unowned; any other token is ignored |
| ControllerTargets.TargetTable.SetLocal | integrations/o3de/Code/Source/SceneInstance.cpp:1056-1075 | A dead token, a foreign epoch, a read-only target and a non-finite value are refused in that order; otherwise the value is pending and the target queued once |
| ControllerTargets.TargetTable.SetVelocity | integrations/o3de/Code/Source/SceneInstance.cpp:1077-1096 | The same for motions |
| ControllerTargets.JudgedMeans | integrations/o3de/Code/Source/SceneInstance.cpp:1056-1096 | A command is done exactly under the open session's epoch, through a live token that may write, with a finite value; each refusal is given exactly when it is the first that applies |
| ControllerTargets.TakeMeans | integrations/o3de/Code/Source/SceneInstance.cpp:1056-1096 | A done command writes its value under its epoch and queues its target once; nothing else changes |
| ControllerTargets.TargetTable.BeginCommands | integrations/o3de/Code/Source/SceneInstance.cpp:1004-1012 | A new session starts with nothing queued and an epoch no record carries |
| ControllerTargets.QueuedNodesDiffer | integrations/o3de/Code/Source/SceneInstance.cpp:1014-1037 | A session writes no node twice |
| ControllerTargets.LastWriteWins | integrations/o3de/Code/Source/SceneInstance.cpp:1056-1096 | After any sequence of commands, what is pending on a write target is the last finite value written through its live token in this session; targets that may only be read are untouched |
| TargetRuns.TokenAfterRun | integrations/o3de/Code/Source/SceneInstance.cpp:947-996 | Over any run of targets handed out and released, a live token is live afterwards exactly when its record is in use and has been released a multiple of 2^32-1 times; so a released token stays dead for fewer releases of its index than that |
| TargetRuns.ReleasedLiveAgain | integrations/o3de/Code/Source/SceneInstance.cpp:947-996 | Such runs exist: a table with one target, released and handed out again 2^32-1 times or any multiple of it, holds the first token live |
| ControllerPreparation.Prepare | integrations/o3de/Code/Source/SceneInstance.cpp:408-496 | Preparation succeeds exactly when the declarations can be attached together: each well formed, uniquely identified, with a factory and distinct resolvable targets, and no node written twice or owned already; otherwise the code names a fault that is there |
| ControllerAttachment.SceneControllers.AttachControllers | integrations/o3de/Code/Source/SceneInstance.cpp:375-563 | All or nothing: every refusal makes it fail, with its own code or that of a fault that is there, nothing else does while the factories are reliable, and after a failure controllers, live targets, owners, batches, transforms and motions are as before; on success every declaration has a controller holding live targets for what it named, in execution order, every command the controllers gave was taken, and exactly what was queued is written, once per node, by the node's owner |
| ControllerAttachment.SceneControllers.CreateAll | integrations/o3de/Code/Source/SceneInstance.cpp:498-551 | Creation stops at the first failing controller, which leaves no target behind; earlier controllers and targets are undisturbed |
| ControllerAttachment.SceneControllers.CreateController | integrations/o3de/Code/Source/SceneInstance.cpp:498-551 | A created controller holds live targets for its references and has had its commands taken; a failed one names what its factory did wrong and has released every target it was given |
| ControllerAttachment.SceneControllers.ApplyCommands | integrations/o3de/Code/Source/SceneInstance.cpp:1014-1037 | Exactly the queued locals and motions are written, each node at most once and only nodes with a write owner |
| ControllerAttachment.SceneControllers.DetachControllers | integrations/o3de/Code/Source/SceneInstance.cpp:598-635 | Exactly the instance's controllers and their targets go, and the batches no remaining controller needs |
| ControllerAttachment.DropsOnlyNew | integrations/o3de/Code/Source/SceneInstance.cpp:553-557 | Detaching after a failed attach restores the controllers, batches and targets there were |
| ControllerAttachment.ArrangementUnique | integrations/o3de/Code/Source/SceneInstance.cpp:394-406 | Whether declarations can be attached does not depend on the order they are given in |
| ControllerAttachment.ArrangedInOrder | integrations/o3de/Code/Source/SceneInstance.cpp:394-406 | Execution order is by declared order, then provider, then id, then type |
| ControllerAttachment.OthersMeans | integrations/o3de/Code/Source/SceneInstance.cpp:598-635 | The controllers that stay are those of the other instances, in order |
| ControllerAttachment.CreationFailureMeans | integrations/o3de/Code/Source/SceneInstance.cpp:498-551 | Which failure code each creation result becomes |
| ControllerAttachment.PendingOwned | integrations/o3de/Code/Source/SceneInstance.cpp:1014-1037 | Every queued write goes to a different node, and each of these nodes has a write owner |
| PrefabTopologies.ValidateAndNormalize | integrations/o3de/Code/Source/PrefabTopology.cpp:171-262 | Succeeds exactly when the descriptors are non-empty, individually valid, uniquely named, without dangling parents and acyclic, and then returns their normal form; a failure names a check that really fails and, except for a cycle, a node that fails it |
| PrefabTopologies.NormalFormUnique | integrations/o3de/Code/Source/PrefabTopology.cpp:252-260 | The normal form depends only on the multiset of descriptors |
| PrefabTopologies.NormalFormStable | integrations/o3de/Code/Source/PrefabTopology.cpp:171-262 | Normalising a normal form changes nothing |
| PrefabTopologies.ParentsFirst | integrations/o3de/Code/Source/PrefabTopology.cpp:252-260 | In the normal form every parent stands before its children |
| PrefabTopologies.Visit | integrations/o3de/Code/Source/PrefabTopology.cpp:214-235 | The memoised visit terminates, marks what it finishes, and fails only below a cycle |
| PrefabTopologies.FindCycle | integrations/o3de/Code/Source/PrefabTopology.cpp:214-240 | A cycle is reported exactly when there is one |
| PrefabTopologies.DepthOf | integrations/o3de/Code/Source/PrefabTopology.cpp:242-251 | The memoised depth recursion terminates with the distance to the root |
| PrefabTopologies.DepthsUnique | integrations/o3de/Code/Source/PrefabTopology.cpp:242-251 | Depths are determined by the parent names |
| PrefabTopologies.FirstDuplicate | integrations/o3de/Code/Source/PrefabTopology.cpp:190-197 | After sorting by name, comparing neighbours finds a duplicate exactly when there is one |
| PrefabTopologies.FirstDangling | integrations/o3de/Code/Source/PrefabTopology.cpp:203-212 | A dangling parent is found exactly when there is one |
| PrefabTopologies.FindNode | integrations/o3de/Code/Source/PrefabTopology.cpp:199-202 | The binary search finds a name exactly when it is there |
| PrefabPaths.EscapeRoundTrip | integrations/o3de/Code/Source/PrefabTopology.cpp:28-45 | An escaped name can be unescaped, holds no slash, and is empty only for the empty name |
| PrefabPaths.EscapePathSegment | integrations/o3de/Code/Source/PrefabTopology.cpp:28-45 | The loop escapes character by character |
| PrefabPaths.EscapeMeans | integrations/o3de/Code/Source/PrefabTopology.cpp:28-45 | Only the percent sign and the slash are escaped, as %25 and %2F |
| PrefabPaths.PathInjective | integrations/o3de/Code/Source/PrefabTopology.cpp:103-130 | Equal paths come from equal lists of names |
| PrefabPaths.SlashesAreDepth | integrations/o3de/Code/Source/PrefabTopology.cpp:103-130 | The number of slashes in a path is the depth |
| EntityHierarchies.ExtractEntityHierarchy | integrations/o3de/Code/Source/PrefabTopology.cpp:47-168 | Extraction succeeds exactly when the entities with transforms are non-empty, usable, closed under parents, have finite trails of non-empty names to a root, and differ in their trails; it then lists them by depth and path with parents named by path; otherwise the code names a fault that is there, found by the first pass that finds one |
| EntityHierarchies.ExtractionIsNormal | integrations/o3de/Code/Source/PrefabTopology.cpp:153-167 | What extraction returns is already a normal form, so validating it succeeds and changes nothing |
| EntityHierarchies.BuildPaths | integrations/o3de/Code/Source/PrefabTopology.cpp:103-137 | Paths can be built exactly when every entity has a finite trail of non-empty names to a root; a reported cycle means the parents cannot be ranked, and a reported bad name that the reported entity or one above it has none |
| EntityHierarchies.BuildPath | integrations/o3de/Code/Source/PrefabTopology.cpp:103-130 | The memoised descent terminates, succeeds for every entity with such a trail, and fails only with a cycle or a nameless entity at or above its start |
| EntityHierarchies.SameNeighbour | integrations/o3de/Code/Source/PrefabTopology.cpp:139-151 | After the sort by depth and path, entries with equal paths have an equal neighbour |
| EntityHierarchies.FirstSamePath | integrations/o3de/Code/Source/PrefabTopology.cpp:143-151 | The adjacent check finds equal paths exactly when there are any |
| EntityHierarchies.PathsDecide | integrations/o3de/Code/Source/PrefabTopology.cpp:143-151 | Paths tell entities apart exactly when their trails of names do |
| EntityHierarchies.TrailsUnique | integrations/o3de/Code/Source/PrefabTopology.cpp:103-130 | An entity's trail of names is determined by the parent links |
| EntityHierarchies.FindDangling | integrations/o3de/Code/Source/PrefabTopology.cpp:83-95 | A parent that was not kept is found exactly when there is one |
| EntityHierarchies.Collect | integrations/o3de/Code/Source/PrefabTopology.cpp:54-81 | Entities without a transform are passed over; the rest are kept in order unless one is unusable; the code of a fault means an invalid or repeated id, or a non-finite transform, is there |
| EntityHierarchies.TakingPart | integrations/o3de/Code/Source/PrefabTopology.cpp:54-63 | Exactly the entities with a transform take part, in the order they come in |
| Placements.PlacementAgrees | integrations/o3de/Code/Source/ScenePolytreeSpawnerComponent.cpp:84-132 | Reset, place and evaluate a slot of any coherent scene whose clock has a revision for every write and the evaluation: every entity was given, before insertion, exactly the world the engine then holds for its node, for every hierarchy and every composition, associative or not |
| Placements.PrepareWorlds | integrations/o3de/Code/Source/ScenePolytreeSpawnerComponent.cpp:84-132 | The pre-insertion pass composes each entity's world along its path from the placement |
| Placements.LogicalWorldMeans | integrations/o3de/Code/Source/ScenePolytreeSpawnerComponent.cpp:84-132 | A root is placed, and any other entity is composed with the world of the entity its parent's name finds first |
| Placements.PlacedWorld | integrations/o3de/Code/Source/ScenePolytreeSpawnerComponent.cpp:84-132 | The world recomputed for a placed node is the one the pre-insertion pass gave |
| Placements.ClearSlot | integrations/o3de/Code/Source/SceneInstance.cpp:1110-1117 | The slot's motions stop and its initial locals are written as far as the clock goes |
| Placements.PlaceSlot | integrations/o3de/Code/Source/SceneInstance.cpp:240-259 | A missing slot and a non-finite placement are refused with nothing written; otherwise it succeeds exactly when the clock has a revision for every root, and writes the placed roots up to the first refusal and nothing else |
| Placements.PlacedState | integrations/o3de/Code/Source/SceneInstance.cpp:240-259 | With revisions to spare, reset and placement leave a coherent scene whose roots hold the placement composed with their initial locals |
| Placements.ElsewhereKept | integrations/o3de/Code/Source/SceneInstance.cpp:240-259 | Resetting and placing a slot touches no other slot's records |
| SlotInstantiations.InstantiateTopology | integrations/o3de/Code/Source/SceneInstance.cpp:103-131 | Succeeds exactly when every parent is listed earlier and the revisions suffice; each descriptor then has its node, under its parent's node, with its local, and older nodes are untouched |
| SlotInstantiations.FrozenSlot | integrations/o3de/Code/Source/SceneInstance.cpp:133-137 | In every freeze of the scene the slot's handles are shaped like the descriptor list |
| SlotInstantiations.NormalFormPlaces | integrations/o3de/Code/Source/PrefabTopology.cpp:252-260 | A normal form can be instantiated |
| SlotLeases.NoAliasing | integrations/o3de/Code/Source/SceneInstance.cpp:852-870 | Two handles that resolve to the same slot are the same handle |
| SlotLeases.SlotTable.ReserveSlot | integrations/o3de/Code/Source/SceneInstance.cpp:224-238 | A lease is a handle that did not resolve before and does now; nothing else changes for any handle; it is granted exactly when the named partition is known and has a free slot |
| SlotLeases.ReserveMeans | integrations/o3de/Code/Source/SceneInstance.cpp:224-238 | A reservation is refused exactly for a partition nobody knows or one without a free slot; otherwise the first free slot is leased under the generation it has, and nothing else changes |
| SlotLeases.SlotTable.ReleaseSlot | integrations/o3de/Code/Source/SceneInstance.cpp:346-360 | Exactly the released handle stops resolving; a stale handle or one with controllers is refused with nothing changed |
| SlotLeases.HandleAfterRun | integrations/o3de/Code/Source/SceneInstance.cpp:224-238 | Over any run of reservations, resets and releases a resolving handle resolves afterwards exactly when its slot is reserved and has been released a multiple of 2^32-1 times; in particular never after at least one and fewer than that many releases |
| SlotLeases.ReleasedResolvesAgain | integrations/o3de/Code/Source/SceneInstance.cpp:346-360 | Such runs exist: with one slot, released and leased again 2^32-1 times or any multiple of it, the first handle resolves again |
| SlotLeases.SlotTable.ResetSlot | integrations/o3de/Code/Source/SceneInstance.cpp:334-344 | Resetting refuses what a release refuses and leaves every handle as it was |
| SlotLeases.ReturnMeans | integrations/o3de/Code/Source/SceneInstance.cpp:334-360 | Resets and releases refuse a handle that does not resolve, then one with controllers; a release frees the slot and moves its generation on, skipping zero, and a reset leaves the leases alone |
| SlotLeases.ResolvesMeans | integrations/o3de/Code/Source/SceneInstance.cpp:852-870 | A handle resolves exactly while the slot it names, in the first partition its spawner names, is leased under its generation |
| SlotLeases.RunGeneration | integrations/o3de/Code/Source/SceneInstance.cpp:346-360 | A slot's generation is determined by the number of its releases |
| SlotLeases.RunSound | integrations/o3de/Code/Source/SceneInstance.cpp:346-360 | No generation is ever zero |

## Left out

- TaskExecutor.ExecuteIsExact: holds for runs whose dispatches meet the headroom condition (chunks + workers) * grain < 2^64; `TaskExecutorLimits.HeadroomIsNeeded` shows that the condition cannot be dropped. The same goes for DispatchIsSafe, NeverStalls and ExecuteReturns.
- ExecuteReturns: counts the steps of the model; a callback that does not return, and a scheduler that never runs any thread, are outside it.
- TaskExecutor: atomics and the mutex are sequentially consistent steps; memory order, thread start and join, spurious wake-ups, the inline path for small jobs and the reset of the statistics are not modelled.
- Evaluate: the checks compare counters, not the identity of the state, so the contract asks that a plan which passes them fits the state; `EvaluationRefinements` discharges that for the plans of one state object. The same goes for EvaluateParallel, which also asks that the workspace still holds the plan's lists.
- EvaluateParallel: the executor enters as an arbitrary order of the writes inside a level; that it runs each index once before it returns is `TaskExecutor.ExecuteIsExact`, and that it returns is `TaskExecutorProgress.ExecuteReturns`.
- MakePlan: a plan keeps which of the workspace's lists it borrows and their lengths; a view longer than its list, possible only whole laps late, has no meaning in the program and is left out of the runs. For the all-dirty branch the roots are stated as a duplicate-free set, because the cached root list need not be in topological order.
- FreezeCoherent: assumes that the graph library freezes the mutable tree faithfully (`FreezesTo`); the internals of `wz::core::graph` and `algo::next` are not part of this model, and a topology's address is never reused for another topology.
- DoEraseSubtree: the erased set, whether the library accepts an insertion or a move, and the fresh ids it issues are parameters; sibling order and edge payloads are not modelled.
- ApplyEach: handle checks and updates are modelled; that single insertions move records one by one in memory is not.
- Capacity, retained bytes and allocation are left out, except for the size the merge reserves.
- Transform pose arithmetic, quaternions and `AzTransformPolicy` are left out; whether a value is finite enters as a flag.
- CorrectLocal: resolving the node handle, and correcting by world transform (evaluate, then a local edit with an inverted parent world), are not modelled.
- AdvanceFrame: the scene's active flag, its statistics and chrono overflow are left out; what the controllers command before each step is arbitrary.
- Synchronization: binding and unbinding entities, and re-binding a node that is already bound, are left out; the bindings are whatever they are. For FrameMirrors they stay as they are and bind no entity twice.
- ClearSlot: the slot's entity bindings, which it also drops, are left out; so are they and the clearing itself in ResetSlot and ReleaseSlot, which state the lease.
- HandleAfterRun: slot indices are natural numbers; their 32-bit casts are not modelled.
- AttachControllers: factories and their batches are arbitrary, but do not call back into the scene except through the command sink; public controller handles, closing input, controller input and the fixed-step calls are left out, and names are ordered identifiers.
- DetachControllers: closing inputs, destroying controllers in their batches and the result code are left out.
- BeginCommands: the 64-bit command epoch does not wrap.
- Allocate: indices are natural numbers; their 32-bit casts are not modelled.
- OutcomesAreUnique: the environment is arbitrary, but a new lease is never one an existing record holds, command ids start at one and are not reused, and request ids do not wrap; activation, deactivation, registration, reconnecting under a new generation and the tick queue's order are left out, and initial spawns are ordinary requests.
- PreparePrefabInstance: the inspection of the spawned entities is one reported problem; so is that of CollectPrefabBindings.
- PrepareWorlds: asks for a list whose parents come earlier, which registration guarantees (`SlotInstantiations.NormalFormPlaces`), and takes spawned locals to equal the registered ones, as the theorem it serves does.
- ValidateAndNormalize: for a cycle, the node that is named is one of the list; that a cycle is above it is not stated.
- ExtractEntityHierarchy: with several faults in one pass, which of them is reported is not stated. For Prepare the code names a fault that is there.
- PrefabTopologies.ValidateAndNormalize: names are compared by character code.
- Buses, reflection, asset loading, edit contexts, module registration, `ScenePolytreeComponent`, the system component's registries, benchmarks other than the reference planner, and tools are left out.
