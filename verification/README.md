# Pebbles: a verified model of the gateway's query path

Pebbles is a GraphQL federation gateway. It merges the schemas of its services, splits a client's query into a tree of
per-service steps, runs the tree depth by depth in parallel, stitches the answers into one JSON tree and erases the
helper fields it added on the way. This project models that path in Dafny and proves that it preserves meaning: for
every query, data graph and interleaving within the stated conditions, the gateway returns exactly what direct evaluation of the
client's query over the combined data returns (`Gateway.Query`).

Code that works in loops is modelled by methods with loops, objects whose methods update them by classes. Each such
method is proved against a specification function or a declarative statement, and the theorems are about those. Map
iteration, goroutine completion and service answers come in an arbitrary order everywhere. The query path itself is
modelled on JSON values; merging and stitching are modelled a second time on an explicit heap, in place, and proved to
show the values that the first model computes.

## How the files fit together

- **Values.** `Prelude`, `Text`, `Points`, `Json`, `Schema`, `Selection`: results and sequences, text encodings, JSON
  trees and addresses in them, the type and location maps, selections and plan steps.
- **Meaning.** `Evaluation` is the reference: direct evaluation over a store of entities and root objects, after
  sections 6.3 and 6.4 of the GraphQL specification, October 2021. `Service` says what a service is: a function of
  query and variables that evaluates what it declares.
- **Planning.** `Planner` is what the splitter computes, `SequentialPlanner` its loops. `Division` says without loops
  which field goes where; `DivisionProofs` proves the two equal, `DivisionShape`, `Conservation` and `RootPlan` what
  follows. `Asking` is the measure of what a selection asks for; `Splitting` and `Opening` prove that splitting and
  sanitizing keep it. `Sanitizing`, `SanitizeProofs`, `Scrubbing`, `ScrubProofs`, `ScrubChoice`, `ScrubCommute`,
  `ScrubConfluence`, `Fragments`: injecting and erasing ids.
- **Executing.** `InsertionPoints`, `FindPoints` and `LostPoints` (where the next steps go), `Stitching`, `MergeMaps`,
  `MergeAlgebra`, `MergeLaws`, `SelfMerge`, `StitchOrder` (putting answers in), `Requests`, `Dedup`, `DepthExecutor`,
  `Scheduler` (rounds), `NullNodes` (requests that nobody answers).
- **In memory.** `Memory` is the heap: references to map and array cells, what a value shows, its footprint. `InPlace`,
  `StitchInPlace` and `Copies` are mergeMaps, the walk, the merge of a level and copyMap as the code does them, by
  writing cells.
- **The run invariant.** `Progress` defines the partial answer after a set of tasks: direct evaluation with the fields
  of every unexecuted step erased. `ProgressProofs`, `PlaceProofs`, `Findable`, `RoundProofs` and `InvariantProofs`
  prove that executing any pending request in any order moves the tree from one partial answer to the next; `Runs`
  lifts this to every run, `ClientQuery` and `Gateway` to client queries.
- **Around it.** `AsyncMapReduce` and `Async` (the concurrent map-reduce), `Batching`, `Merger` and `MergeProofs`, `Files`.

## What the main theorem assumes

- The query is argument-free and over object types, with unique response keys per selection set; `id` and `__typename`
  keep their meaning as response keys; no alias is the name of an earlier sibling (`SanitizeProofs.SanitizeExact` shows
  this is exactly when sanitizing loses nothing); every root field belongs to a service.
- Within one step, no key under which objects are stitched is hidden below an earlier sibling. The executor's deep
  search finds the right field exactly under that condition (`Findable.SearchFinds`, `Findable.SearchMisled`).
  `Gateway.ClearSuffices` gives a condition on the query alone.
- Ids are non-empty and free of `#`; lists of objects hold objects only and have fewer than 2^31 entries; every field of
  a Node or root type has one owner, which `Merger.SingleOwner` derives from a successful merge.
- Services are functions of query and variables, SHA-256 tells the queries of one level apart, and the optional
  parent-type function never contradicts the data.

## Where the code does less than one might expect

Each of these is a lemma about the code as it is, with the exact condition where one is stated.

- A field whose alias is the name of an earlier sibling is dropped from the query (`SanitizeProofs.DroppedField`);
  nothing is lost if and only if there is no such alias (`SanitizeProofs.SanitizeExact`), with inline fragments if and
  only if there is none in the query with its fragments opened (`Opening.SanitizedAsks`).
- An `id` asked for next to a fragment without one is erased although the client asked for it
  (`Fragments.FragmentLosesID`). An object keeps its id if and only if no field or fragment at its path, on a type that
  fits it, lacks an id among its selections (`Fragments.IDKeptExact`).
- A list of nulls on the path of an added id disappears from the response. Cleaning gives what the client asked for if
  and only if every list on such a path is empty or holds an object (`ScrubProofs.CleanRestricts`).
- With lists the order in which two entries are erased can matter (`ScrubCommute.ListsDoNotCommute`). The two orders
  leave the same if and only if the entries are harmless to each other, a condition on the keys of the payload: in short,
  no list that both go through loses all its objects to both together in such a way that one order empties some of them
  a step too early (`ScrubCommute.CommuteExact`). Which candidate type is tried first at an untyped object matters if and
  only if the candidates disagree on its fields (`ScrubChoice.ChoiceExact`), which the records that sanitizing writes
  over object types never do (`Fragments.SanitizedConfluent`).
- A shadowed key leads the search for insertion points to the wrong field (`Findable.SearchMisled`). With several
  starting branches a list entry's id is repeated once more from branch to branch (`InsertionPoints.FindBranches`), so
  only the first branch's points decode to an id (`InsertionPoints.BranchDecodes`). Where some objects have no id, as
  when nothing but the type name came back, the search finds a point for every object that has one if and only if in
  each innermost list all objects have ids or none has (`LostPoints.PointsExact`). An object with an id loses its point
  exactly when an entry of its own list has none (`LostPoints.OwnListOnly`).
- Merging a list of scalars with itself doubles it: where ids are unique, merging a value with itself changes nothing if
  and only if all its lists hold objects only (`SelfMerge.SelfMergeExact`; `SelfMerge.SelfSlices` and
  `SelfMerge.FlatSlices` for repeated ids).
- The collision check for interfaces compares a list of possible types with itself: what the schemas say about possible
  types plays no part in any merge (`Merger.PossibleTypesIgnored`), so schemas merge that should be refused
  (`Merger.ConflictsMerge`).

## Model

| member | source | states |
|---|---|---|
| `Gateway.Query` | gateway.go:253-289 | Meaning preservation: sanitizing, planning, executing and cleaning a supported query succeeds with exactly the direct evaluation of the client's query, for every data graph and every order of maps, answers and arrivals |
| `Gateway.SanitizedIsServed` | planner/sanitize_selection_set.go:9-25 | A sanitized client query meets everything planning and execution need |
| `Gateway.CleanedIsAnswer` | planner/scrub_fields.go:65-131 | Cleaning the evaluation of the sanitized query, in any order of entries, is the evaluation of the client's query |
| `Gateway.ClearSuffices` | executor/selection_set.go:16-30 | Keys not shadowed in the client's query are not shadowed in any step of its plan |
| `ClientQuery.AnsweringOk` | planner/sanitize_selection_set.go:122-157 | Adding ids keeps a query well-typed and plannable |
| `ClientQuery.ClearAnswering` | planner/sanitize_selection_set.go:122-157 | Adding ids shadows no key |
| `ClientQuery.RestrictEval` | planner/scrub_fields.go:65-131 | Evaluating the sanitized query and keeping the keys asked for is evaluating the query |
| `Runs.ExecutePlan` | executor/depth_executor_manager.go:55-96 | Executing a healthy plan succeeds with the direct evaluation of its root selection |
| `Runs.RunHealthy` | executor/depth_executor_manager.go:55-96 | At every moment of every run the tree is the evaluation with unexecuted steps erased, and exactly what is still needed is pending, once each |
| `Runs.RoundHealthy` | executor/depth_executor_manager.go:64-93 | One round, in any order of arrivals, keeps that invariant |
| `Runs.AnyOrder` | executor/depth_executor_manager.go:98-136 | The answers of a round can be stitched in every order of arrival, with the same invariant after |
| `Runs.NeverStuck` | executor/depth_executor_manager.go:64-93 | No round of a healthy run fails |
| `Runs.FinishedRun` | executor/depth_executor_manager.go:55-96 | A run with nothing pending has produced the direct evaluation |
| `Runs.PendingSucceeds` | executor/depth_executor_query.go:74-131 | A pending request alone receives the answer to its task, and its followers are those of that answer, without repeats |
| `InvariantProofs.StepKeepsInv` | executor/depth_executor_manager.go:64-136 | Executing and merging any one pending request keeps the run invariant; its followers are new |
| `InvariantProofs.StartInv` | executor/depth_executor_manager.go:17-62 | The invariant holds of the empty tree and the root requests |
| `InvariantProofs.StitchedIsPart` | executor/result.go:14-86 | Stitching a waiting request's answer gives the partial answer of one task more |
| `InvariantProofs.FollowerWaits` | executor/depth_executor_next_execution_requests.go:11-30 | A request found in an answer waits at a place that was not there before |
| `InvariantProofs.StillRemembered` | executor/depth_executor_next_execution_requests.go:34-113 | No field that still needs another service is ever forgotten |
| `InvariantProofs.NoTwoTasks` | executor/depth_executor_next_execution_requests.go:34-113 | No two pending requests are for the same object and service |
| `RoundProofs.NothingPending` | executor/depth_executor_manager.go:64-96 | With nothing pending, the tree is the direct evaluation |
| `RoundProofs.NextSound` | executor/depth_executor_next_execution_requests.go:34-72 | Finding the next requests in an answer succeeds, and each belongs to an object the answer reaches |
| `RoundProofs.NextComplete` | executor/depth_executor_next_execution_requests.go:34-72 | Every object reached on a step's path gets its request |
| `ProgressProofs.AddTask` | executor/depth_executor_manager.go:113-133 | Merging a service's answer at its object anywhere in the tree adds new keys only and gives the partial answer of one task more |
| `ProgressProofs.AllDoneIsEval` | executor/depth_executor_manager.go:64-96 | With every needed task done, the partial answer is the evaluation |
| `ProgressProofs.AnswerIsPart` | executor/depth_executor_parse.go:21-82 | An object just answered shows the evaluation of the fields that stay with its service |
| `Progress.LocateIsReach` | executor/result.go:90-283 | The places that count as there are exactly the addresses the stitched tree reaches |
| `PlaceProofs.AnswerConforms` | executor/result.go:90-283 | A service's answer has the shape its selection announces along every path to a further step |
| `PlaceProofs.FoundIsReached` | executor/result.go:14-86 | Walking an answer along a point found for it reaches the object whose id the point carries, and changes nothing |
| `Scheduler.DepthExecutorManager.constructor` | executor/depth_executor_manager.go:17-52 | Every level of the plan up to the deepest has its executor, and no other has one |
| `Scheduler.DepthExecutorManager.Execute` | executor/depth_executor_manager.go:55-96 | The loop goes through a run; it succeeds exactly with a run that leaves nothing pending and fails only where the run cannot go on |
| `Scheduler.DepthExecutorManager.Merge` | executor/depth_executor_manager.go:98-136 | The result becomes the old one with all results stitched in order of arrival; it fails only when stitching does |
| `Scheduler.WalkPlanStep` | executor/depth_executor_manager.go:139-154 | Every step below a plan step is filed under its depth, in pre-order, after what was filed before |
| `Scheduler.RunGoesDown` | executor/depth_executor_manager.go:64-93 | In every run, round d executes only plan steps of depth d |
| `Scheduler.NothingLeft` | executor/depth_executor_manager.go:64-96 | Below the last level nothing is pending |
| `Scheduler.NoGaps` | executor/depth_executor_manager.go:17-52 | No level below an empty one |
| `Scheduler.FindLength` | executor/result.go:90-283 | Whatever an answer looks like, points found are as long as the target path |
| `SequentialPlanner.ExtractSelectionSet` | planner/sequential_planner.go:80-195 | The loop with its merging into existing steps computes `Planner.Extract`, error cases included; the mutual recursion ends |
| `SequentialPlanner.CreateQueryPlanSteps` | planner/sequential_planner.go:44-78 | In any order of locations: one step for each location that owns some field, made of exactly its fields, or the error of one of them |
| `SequentialPlanner.RouteSelectionSet` | planner/sequential_planner.go:238-297 | Each location with exactly the fields routed to it, no location without fields, and an error exactly when a field has no location |
| `SequentialPlanner.RouteRoot` | planner/sequential_planner.go:238-272 | The same at the root, visiting services in any order and the internal service last |
| `SequentialPlanner.RouteNested` | planner/sequential_planner.go:274-296 | The same below the root, where builtin fields are dropped |
| `SequentialPlanner.FilterSelectionSetByLoc` | planner/sequential_planner.go:321-336 | Exactly the fields of one location, in order; an error exactly when some field has none |
| `SequentialPlanner.SelectionSetToFields` | common/helpers.go:84-104 | All fields with fragments opened in place |
| `SequentialPlanner.AloneSteps` | planner/sequential_planner.go:158-165 | A single remote field gives one step, whatever the order of locations |
| `Planner.FindStep` | planner/sequential_planner.go:126-128 | The first step for a service at an insertion point, or none |
| `Schema.GetURLSettles` | planner/context.go:21-43 | A field sent to another service stays there when looked up from there, which ends the recursion |
| `DivisionProofs.GatherIsDivision` | planner/sequential_planner.go:80-195 | On sanitized object-type queries the loop succeeds with the declarative division: what stays local and which steps follow |
| `DivisionProofs.JoinedStep` | planner/sequential_planner.go:126-156 | A step that a field joins holds exactly the fields already sent to that service from there |
| `DivisionProofs.OneStepEach` | planner/sequential_planner.go:126-165 | At one insertion point no two steps are for the same service |
| `DivisionProofs.AddToStepIs` | planner/sequential_planner.go:129-151 | Adding a field inside the node query gives the step made for the fields with one more |
| `DivisionProofs.AloneIsSmaller` | planner/sequential_planner.go:158-165 | The field passed on again is a smaller problem |
| `DivisionShape.StepHasPlace` | planner/sequential_planner.go:80-195 | Every step belongs to a place along local fields and holds the fields there that go to its service |
| `DivisionShape.PlaceHasStep` | planner/sequential_planner.go:80-195 | Every place has its step for every other service needed there |
| `DivisionShape.StepsDiffer` | planner/sequential_planner.go:80-195 | Sibling steps never share both service and insertion point |
| `RootPlan.PlanningSucceeds` | planner/sequential_planner.go:44-78 | Planning a sanitized query succeeds and its root requests start a healthy run |
| `RootPlan.PlannedWell` | planner/sequential_planner.go:44-78 | A plan is well-formed for the scheduler: deeper steps have longer insertion points, root steps are bare, digests tell the queries of a level apart |
| `RootPlan.ChildrenDeepen` | planner/sequential_planner.go:80-195 | At every depth of a division, the insertion point of a step that follows properly extends that of the step it follows |
| `RootPlan.PlanDeepens` | planner/sequential_planner.go:44-195 | The same in a whole plan, at every depth |
| `Conservation.Conserved` | planner/sequential_planner.go:80-195 | The fields of a selection, composite ones included, with alias, name, arguments and type, are those that stay and those its steps fetch, each once and at its place in the response |
| `Conservation.PlanConserves` | planner/sequential_planner.go:44-195 | A whole plan fetches exactly the fields of the query with all their parts, each once and at its place |
| `Conservation.GroupConserved` | planner/sequential_planner.go:465-522 | A step, its node wrapping taken off, fetches with the steps after it what the fields it was made for ask, with all their parts |
| `Splitting.ExtractSplits` | planner/sequential_planner.go:80-195 | For any selections, inline fragments and unlocated fields included: whenever splitting succeeds, what stays and what the steps fetch are the fields asked for, each once, at its place, with alias, arguments and type |
| `Splitting.JoinsStep` | planner/sequential_planner.go:126-156 | A field that joins a step, wrapped in a node query or not, is asked once more there and nothing else changes |
| `Asking.OpeningAsks` | common/helpers.go:84-104 | Opening fragments in place changes nothing that is asked |
| `SequentialPlanner.InternalExact` | planner/sequential_planner.go:238-272 | At the root the internal service gets exactly the introspection fields, in order, and a root set of them alone can always be planned |
| `Service.LocalDeclared` | planner/context.go:21-43 | Every non-id, non-builtin field of a Node or root type in a step is owned by that step's service |
| `Service.WaitingAnswered` | executor/depth_executor_parse.go:21-82 | A waiting request receives the evaluation of its fields at its object, unwrapped from the node query |
| `Service.NodeAnswered` | executor/depth_executor_query.go:74-131 | The id decoded from the insertion point makes a node query answer about the right entity |
| `Service.VariablesExact` | executor/depth_executor_query.go:74-109 | Sent along are exactly the client's variables that the step mentions at any depth, with their values, and the id of the insertion point; it fails exactly where there is none |
| `Service.NeededExact` | executor/depth_executor_query.go:111-131 | A request is skipped if and only if its object is known to be of another type than its step's |
| `NullNodes.SkippedIsNull` | executor/depth_executor_query.go:111-131 | A skipped request is one that gets a null node |
| `NullNodes.NullSucceeds` | executor/depth_executor_parse.go:36-82 | A request that gets a null node succeeds with nothing to stitch and nothing after it |
| `NullNodes.NodeRequired` | executor/depth_executor_parse.go:36-55 | A node query answered without a node, or with one that is no object and not null, fails |
| `NullNodes.NullStitched` | executor/result.go:14-86 | Stitching its empty result at an object that is there leaves the tree as it was |
| `NullNodes.NullsFallAway` | executor/depth_executor_manager.go:98-136 | Among separate results the empty ones leave no trace, wherever they arrive |
| `NullNodes.RoundSurvives` | executor/depth_executor_manager.go:64-136 | A round whose requests each succeed alone or get a null node never fails, and in every order of arrival the tree is what the others alone make of it |
| `InsertionPoints.FindIsReached` | executor/result.go:90-283 | From one starting point: exactly one point for each object reached, in order |
| `InsertionPoints.FindBranches` | executor/result.go:90-283 | From any number of starting branches: for each object reached, in order, one point per branch, with the id of a list entry repeated once more from branch to branch |
| `InsertionPoints.BranchDecodes` | executor/result.go:181-199 | Such a point decodes to the right field and position on every branch, but to the id on the first one only |
| `InsertionPoints.InsertionPointsExact` | executor/result.go:90-283 | Points are pairwise distinct, as long as the target, extend the start, end in the object's id, and correspond one to one with the addresses on the path |
| `InsertionPoints.ReachedComplete` | executor/result.go:131-203 | No object on the path is missed, through any nesting of lists |
| `InsertionPoints.PrintPathInjective` | executor/result.go:171-195 | Different addresses or ids print different points |
| `FindPoints.FindInsertionPoints` | executor/result.go:90-283 | The loops compute `InsertionPoints.Find` for any number of starting branches, error cases included |
| `LostPoints.PointsExact` | executor/result.go:90-283 | Where some objects reached have no id, the search still succeeds; it finds exactly one point for each object with an id, in order, if and only if in every innermost list all objects have ids or none has |
| `LostPoints.OwnListOnly` | executor/result.go:181-199 | An object with an id gets its point if and only if all objects of its own list have ids, whatever other lists hold |
| `LostPoints.EntriesExact` | executor/result.go:181-199 | One list: as many points as entries with ids if and only if all entries have one or none has |
| `LostPoints.SearchFails` | executor/result.go:90-283 | The search fails exactly on answers with a null where the type excludes it, a list where none is announced or none where one is, entries that are no objects, or no id to take at the end |
| `LostPoints.ListUnderObject` | executor/result.go:238-259 | Where a list stands in place of an object, each branch ends in its entry's position and id |
| `InsertionPoints.ExtractIDExact` | executor/result.go:285-297 | No id is taken, and no error made, exactly where the id is null or nothing but the type name came back |
| `Findable.SearchFinds` | executor/selection_set.go:16-30 | The deep search finds a field itself when no earlier sibling hides its key |
| `Findable.SearchMisled` | executor/selection_set.go:16-30 | Otherwise it returns a field from inside the first sibling that does |
| `Findable.SearchMisses` | executor/selection_set.go:16-30 | It fails exactly on keys that occur nowhere |
| `Points.DecodePrint` | executor/point_data.go:24-77 | Decoding a printed point gives field, index and list-ness back; indexes from 2^31 fail, ids with a hash are lost |
| `Points.PrintInjective` | executor/result.go:171-195 | Different field, index, id triples never print alike |
| `Points.CacheKeyInjective` | executor/depth_executor_next_execution_requests.go:44-46 | The joined text under which insertion points are remembered tells paths of names apart |
| `Points.CachedPointDataExtractor.Extract` | executor/point_data.go:24-77 | The decoder with a cache always agrees with the plain decoder, and remembers only successes |
| `Stitching.ExtractValueModifyingSource` | executor/result.go:14-86 | The walk that writes into the source computes `Stitching.ExtractValue`, error cases included |
| `Stitching.ReachesWhatIsThere` | executor/result.go:14-86 | Walking to an object that is there finds it and changes nothing |
| `Stitching.SecondWalkAddsNothing` | executor/result.go:14-86 | On any path, a second walk reaches the same object and adds nothing |
| `Stitching.WalkOnlyAdds` | executor/result.go:14-86 | On any path, everything the source held is still there, and what is new is the missing objects on the address walked to and empty list entries up to the positions it names |
| `Stitching.WalkAddsAlong` | executor/result.go:14-86 | Off the address walked to, the source is unchanged |
| `Stitching.WalkExact` | executor/result.go:14-86 | A walk succeeds if and only if only missing, null and fitting values lie on its way |
| `StitchOrder.PutsCommute` | executor/depth_executor_manager.go:98-136 | Two results that do not write what the other writes or walks through can be merged in either order |
| `StitchOrder.OrderIndependent` | executor/depth_executor_manager.go:98-136 | Pairwise separate results can be stitched, and give the same tree in every order of completion |
| `MergeMaps.LeftPosition` | executor/utils.go:41-52 | What the position means: an entry with that id, and no earlier one |
| `MergeMaps.MergeResult` | executor/depth_executor_manager.go:113-133 | A result merged into its object: objects are merged, everything else overwritten |
| `InPlace.GoHeap.MergeMapInPlace` | executor/utils.go:11-39 | mergeMaps in place, keys in any order: the left map then shows the merge, and only cells of the two trees are written |
| `InPlace.GoHeap.MergeSliceInPlace` | executor/utils.go:64-98 | mergeSlices in place, with appends that reuse the array or move to a new one: the resulting slice shows the merge, and only cells of the two trees are written |
| `InPlace.GoHeap.GetLeftEntityPosition` | executor/utils.go:41-52 | The first map with the id, or none |
| `InPlace.NextKey` | executor/utils.go:12-37 | One key stored from the old value, the right one or new cells keeps the left tree apart from what waits on the right |
| `Memory.Framed` | executor/utils.go:11-98 | What a value shows depends on the cells of its footprint only |
| `Memory.LeftAlone` | executor/utils.go:11-98 | Every value with a disjoint footprint shows what it showed |
| `StitchInPlace.ExtractInPlace` | executor/result.go:14-86 | The walk in place: the source then shows what the value walk gives, the reference returned is the map at the address walked to, and only cells of the source are written |
| `StitchInPlace.InContext` | executor/result.go:14-86 | Writing below an address leaves the rest of the tree as it was |
| `StitchInPlace.MergeResultInPlace` | executor/depth_executor_manager.go:113-133 | One answer merged in place into the map it belongs to |
| `StitchInPlace.StitchInPlace` | executor/depth_executor_manager.go:98-133 | One answer stitched in place shows what stitching the value gives, with the same failures, and writes only cells of tree and answer |
| `Copies.FanOutAndMerge` | executor/depth_executor_query.go:206-216 | One answer fanned out to many requests and merged at all their places, in place: the tree shows what stitching separate values gives, whatever cells the answer shares |
| `Copies.CopiesWait` | executor/depth_executor_query.go:206-216 | What fan-out hands out is what the merge of a level needs: trees apart from each other and from the tree, one answer after another |
| `Copies.MergeInPlace` | executor/depth_executor_manager.go:98-136 | The merge of a level in place: with answers that are separate trees, the tree shows what stitching all values in order gives |
| `Copies.CopyMap` | executor/utils.go:119-129 | copyMap: the same JSON value in new cells, nothing else written |
| `Copies.FanOutCopies` | executor/depth_executor_query.go:206-216 | The copies of one answer are trees that show it and share no cell with each other or with anything else |
| `Copies.SharingIsNoTree` | executor/depth_executor_query.go:206-216 | A map that holds one composite value under two keys is no tree |
| `Copies.WithoutCopy` | executor/depth_executor_query.go:206-216 | Without the copy, merging at one insertion point changes what is read at another |
| `MergeAlgebra.MergeIsOverlay` | executor/utils.go:11-98 | The mutual recursion is a reference overlay: the left order kept, a right element overlaid on the left one of its id wherever that is, else on the one at its position, else appended; the right side wins on leaves |
| `MergeAlgebra.ResultWins` | executor/depth_executor_manager.go:113-133 | Merging a result into its object: no key is lost, an object is overlaid on an object, and otherwise the result wins |
| `MergeLaws.OverlayIdempotent` | executor/utils.go:11-98 | The overlay is idempotent on values whose list elements have unique ids |
| `MergeLaws.OverlayAssociative` | executor/utils.go:11-98 | The overlay is associative on values whose lists go together pairwise, reordered ids included |
| `MergeLaws.OverlayCommutative` | executor/utils.go:11-98 | The overlay is commutative, up to the order of lists with ids, where both sides agree on shared leaves |
| `MergeLaws.Laws` | executor/utils.go:11-98 | The three laws for mergeMaps itself, with conditions on the given maps only |
| `MergeLaws.RegularLeft` | executor/utils.go:11-98 | What two maps that go together with a third are merged to goes together with it |
| `MergeLaws.RegularRight` | executor/utils.go:11-98 | The same on the other side |
| `SelfMerge.SelfSlices` | executor/utils.go:64-98 | A list merged with itself is itself if and only if it holds objects only, each with all that the elements of its id have |
| `SelfMerge.FlatSlices` | executor/utils.go:64-98 | With repeated ids, on objects of leaves: if and only if the first element of an id has, for each key, what the last element of that id with the key has |
| `SelfMerge.SelfMergeExact` | executor/utils.go:11-98 | With unique ids, a value merged with itself is itself if and only if all its lists hold objects only |
| `Dedup.ExecuteRequests` | executor/depth_executor_query.go:151-229 | Every slot holds its own request and the answer it would receive alone; it fails exactly when one alone would; what is sent is one call for every slot that needs a query, in order, except node queries that an earlier slot has made |
| `Dedup.KeyExact` | executor/depth_executor_query.go:133-148 | Different slots share a key if and only if both are node queries with no variable but the id, for the same id and selection, wherever their insertion points are |
| `Dedup.BatchExact` | executor/depth_executor_query.go:151-189 | With such keys the batch is what is to be sent, whatever the keys are made of |
| `Dedup.SentOnce` | executor/depth_executor_query.go:151-189 | Below the first level a call with the id as its only variable is sent once if some request needs it, and otherwise not at all |
| `Dedup.Queryer.Query` | executor/depth_executor_query.go:190-197 | A queryer logs the calls it is sent and answers all of them or fails |
| `Dedup.LeadersLead` | executor/depth_executor_query.go:161-183 | The batch is the calls of the slots that are first with their key, in order, and every needed slot has the key of exactly one of them |
| `Dedup.SlotsPartition` | executor/depth_executor_query.go:161-183 | The index lists and the skipped slots hold each position exactly once |
| `Dedup.Prepare` | executor/depth_executor_query.go:161-183 | The first loop builds exactly that batch, those lists and those skipped slots |
| `Dedup.FanOut` | executor/depth_executor_query.go:199-226 | The second loop gives every slot of a list its answer and every skipped slot a null node |
| `Dedup.IndexMap.Set` | executor/depth_executor_query.go:23-34 | A new key gets its target and slot, a known key one more slot; tells which |
| `Dedup.IndexMap.GetSameIndexes` | executor/depth_executor_query.go:39-46 | The slots of the entry with a target, searching in any order |
| `Dedup.NodeKeyInjective` | executor/depth_executor_query.go:133-148 | The key text determines id and digest, whatever the id holds |
| `Dedup.KeyMeansNode` | executor/depth_executor_query.go:133-148 | Different slots with one key make the same call: positional and node keys never meet |
| `Dedup.PrintDigestInjective` | executor/depth_executor_query.go:138-143 | The printed digest determines the digest |
| `DepthExecutor.Execute` | executor/depth_executor.go:21-61 | In any order of services: the outcome of every request, each once; it fails exactly on an empty list or when some request alone would |
| `DepthExecutor.PartitionByURL` | executor/depth_executor.go:26-29 | One non-empty group per service, together all requests |
| `DepthExecutor.ExecuteGroup` | executor/depth_executor.go:34-48 | One service's share: the outcomes its requests have alone, in some order |
| `DepthExecutor.ParseResponses` | executor/depth_executor_parse.go:21-82 | Results and next requests of all responses, each once in some order; one failure fails them all |
| `DepthExecutor.FindNextExecutionRequestsWithCache` | executor/depth_executor_next_execution_requests.go:34-72 | The cached finder yields exactly the requests of the plain per-step search |
| `DepthExecutor.FindNextExecutionRequestsAsync` | executor/depth_executor_next_execution_requests.go:74-113 | The asynchronous finder yields the same requests up to order |
| `DepthExecutor.FindNextExecutionRequests` | executor/depth_executor_next_execution_requests.go:11-30 | Whichever finder is chosen, the requests are the same up to order |
| `AsyncMapReduce.StepInv` | common/helpers.go:24-79 | Every interleaved step of workers, reducer and caller keeps the invariant |
| `AsyncMapReduce.NoPanic` | common/helpers.go:24-79 | Nothing is sent on a closed channel and the wait group never goes negative |
| `AsyncMapReduce.NoDeadlock` | common/helpers.go:24-79 | Until the caller has returned some step is possible |
| `AsyncMapReduce.StepDecreases` | common/helpers.go:24-79 | Every step brings the end one step nearer |
| `AsyncMapReduce.Returns` | common/helpers.go:24-79 | On return each item was received once, the accumulator is the fold over the successes and the errors are the failures' in one order, and every goroutine has ended |
| `AsyncMapReduce.Run` | common/helpers.go:24-79 | The goroutines as one nondeterministic loop: whatever event happens next, it ends, with an interleaving after which the caller has returned |
| `AsyncMapReduce.FoldIsFolded` | common/helpers.go:55-68 | The accumulator is the reduce function folded over the values in the order received |
| `AsyncMapReduce.ErrorsExact` | common/helpers.go:61-78 | There are errors exactly when some item failed with one |
| `AsyncMapReduce.EveryRunEnds` | common/helpers.go:24-79 | Every interleaving is bounded, and one that cannot go on has returned |
| `Async.Gather` | common/helpers.go:24-79 | What callers rely on, obtained by running the goroutine machine: the reduce function folded over all values, each once in order of arrival, or a failure exactly when some item failed |
| `Batching.Query` | queryer/multiop_queryer.go:68-116 | For every batch size, input length and completion order, each position holds the answer to its input; it fails exactly when a chunk does |
| `Batching.QueryBatch` | queryer/multiop_queryer.go:119-163 | Every slot gets its own answer across the remapping around file requests |
| `Batching.SpliceKeeps` | queryer/multiop_queryer.go:100-109 | Splicing a chunk in keeps the length and every other position |
| `Batching.Reassembled` | queryer/multiop_queryer.go:100-109 | Folding the splice over the chunks in any order of arrival puts every answer in its place |
| `Sanitizing.SanitizeSelectionSet` | planner/sanitize_selection_set.go:9-62 | The loop over fields and inline fragments of object types computes `Sanitizing.Sanitize`, result and record |
| `Sanitizing.AddSelectionSetToSanitizedResult` | planner/sanitize_selection_set.go:159-169 | Selections are appended unless their alias names a field already there |
| `SanitizeProofs.SanitizeExact` | planner/sanitize_selection_set.go:9-25 | Sanitizing is adding ids, nothing lost, if and only if no alias is the name of an earlier sibling |
| `SanitizeProofs.DroppedField` | planner/sanitize_selection_set.go:159-169 | A query that loses a field |
| `SanitizeProofs.SanitizeRecords` | planner/sanitize_selection_set.go:107-157 | The record has exactly one entry for each object that got an id, under its path, with its type |
| `Opening.OpenedExact` | planner/sanitize_selection_set.go:9-62 | With inline fragments of object types: the result is the query with fragments opened in place and ids added, every field otherwise as it was, if and only if no alias is the name of an earlier field of that query |
| `Opening.SanitizedAsks` | planner/sanitize_selection_set.go:9-62 | The sanitized query asks nothing but the query's fields, with all their arguments, and the added ids, and all of them under the same condition |
| `Opening.AddedExact` | planner/sanitize_selection_set.go:107-157 | Ids are added at exactly the paths at which some field or fragment on a Node type lacks one |
| `Fragments.RecordExact` | planner/sanitize_selection_set.go:9-62 | With inline fragments: an id is recorded for a type at exactly the paths at which some field or fragment on that type lacks one |
| `Fragments.IDKeptExact` | planner/sanitize_selection_set.go:37-57 | With inline fragments, in every order of entries and candidate types: an object keeps its id if and only if no field or fragment at its path, on a type that fits it, lacks an id |
| `Fragments.FragmentLosesID` | planner/sanitize_selection_set.go:37-57 | A query whose own id Clean takes out of the answer |
| `SanitizeProofs.HashInjective` | planner/scrub_fields.go:29-35 | Paths of aliases are told apart by their text, and splitting the text gives the path back |
| `Scrubbing.ScrubFields.Set` | planner/scrub_fields.go:37-43 | One more field under a path and type, without repeats |
| `Scrubbing.ScrubFields.Get` | planner/scrub_fields.go:45-51 | The fields under a path and type, or none |
| `Scrubbing.ScrubFields.Merge` | planner/scrub_fields.go:53-63 | Both records together, path by path and type by type, in any order of entries |
| `Scrubbing.SetAdds` | planner/scrub_fields.go:37-43 | Recording adds one field under one path and type, and changes nothing else |
| `Scrubbing.MergeUnites` | planner/scrub_fields.go:53-63 | Under each path and type a merged record has the fields of both |
| `Scrubbing.ScrubFields.Clean` | planner/scrub_fields.go:65-76 | All entries erased one after the other in some order, each with its candidate types tried in some order; nothing else is left possible |
| `Scrubbing.CleanPath` | planner/scrub_fields.go:78-131 | One entry erased at the end of its path in every object and list entry, whichever candidate type is tried first, emptied parents removed |
| `Scrubbing.SettledAllOnce` | planner/scrub_fields.go:65-131 | Where the candidate types agree on every erased object, only one payload can be left |
| `ScrubChoice.ChoiceExact` | planner/scrub_fields.go:78-131 | One entry leaves one payload, whichever candidate type is tried first at each object, if and only if every object at the end of its path says its type or has the same fields erased by all candidates |
| `ScrubProofs.CleanRestricts` | planner/scrub_fields.go:65-131 | Erasing undoes injecting, in any order of entries: a conforming response becomes the response restricted to what the client asked for, at every depth, if and only if every list on the path of an added id is empty or holds an object |
| `ScrubProofs.StripItems` | planner/scrub_fields.go:103-112 | A list goes exactly when it is not empty and holds no object |
| `ScrubCommute.EmptiedExact` | planner/scrub_fields.go:78-131 | An entry reports an object emptied if and only if the object holds nothing but fields to erase at the end of the path and nothing but the path's key before |
| `ScrubCommute.CommuteExact` | planner/scrub_fields.go:78-131 | Two entries at different paths on a payload whose type names are text, cascaded removal of parents included: what any runs leave in the two orders is the same if and only if a condition on the keys of the payload holds for each list both go through |
| `ScrubConfluence.AnchoredHarmless` | planner/scrub_fields.go:78-131 | That condition holds of payloads in whose lists some object has a key that nothing touches |
| `ScrubConfluence.CommuteAnchored` | planner/scrub_fields.go:78-131 | So there any runs of two entries leave the same in either order |
| `ScrubConfluence.SettledThroughout` | planner/scrub_fields.go:65-131 | If the candidate types agree on every object an entry ends at, they do throughout, in every order of erasures |
| `ScrubConfluence.CleanConfluent` | planner/scrub_fields.go:65-131 | Any two runs of Clean on such a payload leave the same, whatever their orders of entries and candidate types |
| `ScrubConfluence.ListFreeConfluent` | planner/scrub_fields.go:65-131 | The same on payloads without lists, whatever the entries are |
| `Fragments.SanitizedConfluent` | planner/sanitize_selection_set.go:9-62 | The record of a query with inline fragments never leaves a choice: any two runs of Clean on such a payload leave the same, untyped objects with several candidates included |
| `ScrubCommute.ListsDoNotCommute` | planner/scrub_fields.go:103-112 | A payload with a list that every run in one order keeps and every run in the other loses |
| `Merger.Merge` | merger/extend_merger.go:19-46 | Succeeds exactly when every pairwise merge does, with the merged types and the location map of all inputs |
| `Merger.MergeTypes` | merger/extend_merger.go:81-167 | In any order of names: each name is settled on its own, and one collision, of kind, union, interface, Node-ness or fields, fails the merge |
| `MergeProofs.MergeExact` | merger/extend_merger.go:81-167 | Two declarations of one name merge if and only if name kinds, union members, Node-ness and fields allow it, each said on the declarations; and what they merge to, fields as they were declared |
| `MergeProofs.RootFieldsExact` | merger/extend_merger.go:208-229 | Root fields: it succeeds exactly without a clash, and every field taken over is added with its arguments and type, as often as it was declared |
| `MergeProofs.CustomFieldsExact` | merger/extend_merger.go:256-314 | Other fields: a complete copy adds nothing, otherwise there must be no clash and every field is added as it was declared |
| `MergeProofs.DeclaredExact` | merger/extend_merger.go:37-46 | After merging any number of schemas the field definitions of a root or Node type are those the inputs declare, each as often as they declare it, but for introspection, node lookups and ids |
| `MergeProofs.IDOnce` | merger/extend_merger.go:256-314 | A merged Node type has its id once if each declaration has it once |
| `MergeProofs.MarkedExact` | merger/type_url_map.go:105-125 | A type counts as a Node type exactly when some input declares it as one |
| `MergeProofs.TypesExact` | merger/extend_merger.go:81-103 | The merged schema has the types of the first schema and of the others exactly those that are not builtin |
| `Merger.PossibleTypesIgnored` | merger/extend_merger.go:128-142 | The interface check never fires: what the schemas say about possible types changes no merge |
| `Merger.ConflictsMerge` | merger/extend_merger.go:128-142 | Schemas that merge still do when they are made to disagree about an interface |
| `Merger.RootFieldsAdded` | merger/extend_merger.go:208-229 | Merged root fields are those of both sides, which do not overlap |
| `Merger.NodeFieldsMerged` | merger/extend_merger.go:256-314 | Merged Node-type fields are those of both sides, which do not overlap |
| `Merger.DividedMerge` | merger/extend_merger.go:144-164 | A merged root or Node type keeps name, kind and Node-ness and puts the fields of both sides together, none declared twice |
| `Merger.SingleOwner` | merger/extend_merger.go:37-46 | After merging any number of schemas each located field of a root or Node type is declared by exactly one input, and GetURL returns its URL whatever the fallback |
| `Merger.NothingLost` | merger/extend_merger.go:37-46 | Each located field an input declares is in the merged type, and no other input declares it |
| `Merger.URLMap.Set` | merger/type_url_map.go:42-53 | A field's URL is recorded, never an id's |
| `Merger.URLMap.SetTypeIsImplementsNode` | merger/type_url_map.go:55-61 | A type is marked, its fields kept |
| `Merger.URLMap.SetFromSchema` | merger/type_url_map.go:105-125 | In any order of types: the located fields of every object type recorded for the service, Node types marked |
| `Files.RoundTrip` | requests/request.go:145-214 | Uploads injected at distinct null places and extracted in any order come back as exactly those uploads under those paths, and the variables are as before |
| `Files.PathWrites` | requests/request.go:145-214 | A place's path, single or batched, puts the file there and changes nothing else |
| `Files.InjectWrites` | requests/request.go:165-209 | Injecting along a path through maps, optionally ending in a list index, writes that one place |
| `Files.ParseRequestResponse.InjectFile` | requests/request.go:145-214 | One upload put at all its paths in order, or an error when one of them fails |
| `Files.ExtractFiles` | queryer/files.go:43-56 | Every upload of the variables is found once under its path, and the variables hold null in their places |
| `Files.UploadMap.Extract` | queryer/files.go:58-81 | The same for one value, maps visited in any order |
| `Files.UploadMap.Add` | queryer/files.go:35-40 | One more upload under its variable |

## Left out

- Interfaces, unions and fragment spreads (planner/sanitize_selection_set.go:64-105, planner/sequential_planner.go:197-236): the sanitizer and the splitter open inline fragments of object types, but the meaning theorem is about queries without fragments, since it fails with them; `Fragments.IDKeptExact` says which ids survive.
- Sanitizing.SanitizeSelectionSet: fragment spreads, which the code turns into inline fragments, and parents of interface or union type are not modelled.
- SequentialPlanner.ExtractSelectionSet: parents of interface kind are not modelled.
- SequentialPlanner.CreateQueryPlanSteps: the root `node` field (planner/sequential_planner.go:341-412) groups selections in a scheme of its own; no root field is called `node` here.
- SequentialPlanner.RouteSelectionSet: requires the same of the root.
- SequentialPlanner.RouteRoot: requires the same of the root.
- Root `__typename` and introspection: answered by the internal service, which is not part of this model.
- Arguments, variables and directives: a client's variables are carried along and filtered as in the code, but a client variable named `id` is overwritten by the node id, so the meaning theorem is argument-free. The query printer is not part of this model; a step's digest is a function of its selection.
- SHA-256 and the printer are assumed to tell the queries of one level apart (`Gateway.NoCollisions`).
- Stitching.ExtractValueModifyingSource: returns the new source; `StitchInPlace.ExtractInPlace` is the same walk writing through references.
- MergeMaps.MergeResult: returns the merged object; `StitchInPlace.MergeResultInPlace` is the same loop writing in place.
- InPlace.GoHeap.MergeMapInPlace: ids are leaves in every tree shown, since Go panics when it compares maps or slices.
- StitchInPlace.ExtractInPlace: a point that leads into an `id` is excluded, ids being leaves.
- StitchInPlace.StitchInPlace: excludes the same points.
- Copies.MergeInPlace: excludes the same points.
- Copies.FanOutAndMerge: excludes the same points, and merges the answer as it is; taking `node` out of it is in `DepthExecutor`.
- Copies.CopyMap: copies cell by cell instead of printing and parsing JSON text, so what the printer does to numbers and invalid text is not captured.
- FindPoints.FindInsertionPoints: an index into the list that Go would panic on is an error here.
- Points.DecodePrint: covers canonical decimal indexes, the only ones the executor prints; the hexadecimal, octal and underscore forms that ParseInt accepts are errors here.
- Points.CachedPointDataExtractor.Extract: one caller at a time; the read-write lock that makes each look-up and each store atomic is not modelled.
- InsertionPoints.Printed: an id that is a list or an object is not spelled out in text.
- Dedup.ExecuteRequests: done in two passes over the slots where the code interleaves them, the result being the same; a queryer exists for every step's URL and answers as many calls as it is sent.
- DepthExecutor.FindNextExecutionRequestsWithCache: the cache is keyed by the path, for which `Points.CacheKeyInjective` shows the code's text to stand.
- After an error the state of a manager, a record or a request list is not described, as the callers discard it; the partial data the gateway returns beside an error is not modelled.
- Merger.Merge: the merged schema is printed and loaded again by the code, which can fail; that is left out.
- Merger.MergeTypes: descriptions, directives and enum values are left out, as they do not decide ownership; possible types are kept as the parser lists them.
- MergeProofs.MergeExact: says of enums and input objects what is said of fields; enum values are left out.
- Splitting.ExtractSplits: selections of the root `node` field and composite fields without an alias are excluded; the parser gives every field an alias.
- Files.ParseRequestResponse.InjectFile: the variables are values, and a negative list index, on which Go panics, is an error.
- Planning and execution contexts, HTTP, multipart bodies, subscriptions, the caching planner, error formatting and the playground: I/O or easy members.
