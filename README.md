# Task sequencing and graph search, modelled in Dafny

This project models the search core of a task-sequencing service.

- **The scheduling problem.** A set of tasks must be run on one machine. Changing over from one task to the next costs a sequence-dependent setup cost, read from a table keyed by `(from, to)`. Task `0` stands for the idle machine before the first task.
- **A search state** is a pair: the bitmask of tasks still to run, and the task run last.
- **A move** schedules one remaining task. It clears that task's bit and adds the change-over cost.
- **The backend searches** for an order of the tasks. It has nine drivers: breadth-first, depth-first, depth-limited, iterative deepening, bidirectional, uniform cost, greedy, A* and IDA*. Greedy, A* and IDA* use one of three cost-to-go estimates:
  - h1: minimum outgoing change-overs;
  - h2: the cheapest change-over from the last task plus the weight of a minimum spanning tree over the symmetrised costs, grown by Prim's method;
  - h3: the number of family switches times the cheapest change-over between families.
- **A second instance of the same skeleton** searches explicit graphs and grid maps. It has uninformed searches (breadth-first, depth-first, depth-limited, iterative deepening, bidirectional) and informed ones (uniform cost, greedy, A*, IDA*).
- **The frontend** reads graph files and task files, reads the three text fields of the task form, writes task data back into those fields, and checks task data before it is sent.

How the source's structures appear in the model:

- Costs are whole numbers plus an explicit infinity, as `Costs.Cost`.
- A bitmask is the set of its bit positions.
- A grid lookup `map_grid[x][y]` follows Python indexing: a negative index counts back from the end, and an index outside the list raises IndexError, shown as None (`GridSearch.Lookup`).
- Parent-linked search nodes live in an arena, a sequence in creation order. A parent link is an index into the arena.
- Each search loop is an imperative method. It carries the invariants of the frontier, the closed or visited set, and the tree.
- Each driver's contract says what its answer means:
  - a sequence found is an order of the task list, without the idle task;
  - its cost is the sum of the change-overs along that order;
  - a path found in a graph is a walk from start to goal whose weights sum to the reported cost;
  - a scheduling driver without a cutting depth limit always finds an order, with two exceptions: bidirectional scheduling answers `([], inf)` on distinct tasks other than 0 (see below), and IDA* runs a bounded number of rounds: when those are more than `ProbeBounds.FCap` (a bound computed from the inputs alone), "no order" means every order costs infinity when the table lists the searched tasks;
  - a graph or grid search reports "no path" only when no walk exists, or when a depth limit cut the search short; the IDA* searches claim this when they are given more rounds than their `RoundCap`, a bound computed from the inputs alone, and `GraphUninformed.BidirectionalSearch` makes no claim about its None.
- JavaScript records are lists of `(key, value)` entries in insertion order, with integer-like keys first and ascending. Number text is kept as a decimal (`JsRecords.Decimal`: whole digits and fraction digits).

Where the code cannot run as written, the model follows the evident intent:

- `_get_initial_state` returns a `(node, bitmask)` pair (backend/service/implementation/TaskSchedulingSearch.py:357-366). Most drivers then use that pair as a node. `SchedulingDrivers.GetInitialState` returns the pair, and the drivers use its node. That node is built the way `a_star_scheduling` builds its start node (all bits set, last task 0, no cost).
- `_reconstruct_bidirectional_path` is declared with two nodes (line 611) but called with three arguments (lines 535 and 568). It is modelled with the two nodes it declares.
- The search calls the heuristics as `h(node, setup_matrix)`. That matches backend/service/scheduling/TaskSchedulingHeuristics.py, which is the version modelled. The copy in backend/service/implementation is not part of this model.

Two behaviours of the code as written are proved rather than changed:

- **Bidirectional scheduling never meets** on a list of distinct tasks other than 0, so it answers `([], inf)`. A forward node has cleared the bit of its last task, while a backward node has set it, so the two sides never share an identity. See `SchedulingBidirectional.SharedKey` and `SchedulingBidirectional.BidirectionalScheduling`.
- **Iterative-deepening scheduling** takes the first result whose sequence is non-empty. It therefore finds nothing for a task list made only of 0s.

## Model

| member | source | states |
|---|---|---|
| Costs.AddMonotone | backend/service/implementation/TaskSchedulingSearch.py:395-396 | adding a change-over cost never lowers a path cost |
| SetupMatrices.PyIntOfRendering | backend/service/implementation/TaskSchedulingData.py:15 | Python `int()` reads back the decimal rendering of every integer, negative ones included |
| SetupMatrices.PyIntOfDigits | backend/service/implementation/TaskSchedulingData.py:15 | `PyInt`, the model of `int()`, reads a run of decimal digits as its value |
| SetupMatrices.PyIntOfNegated | backend/service/implementation/TaskSchedulingData.py:15 | `int()` of a minus sign before digits is the negated value |
| SetupMatrices.ParseKeyString | backend/service/implementation/TaskSchedulingData.py:14-16 | `ParseKey` reads every key `"(i,j)"` back to the pair `(i, j)` |
| SetupMatrices.RenderingShape | backend/service/implementation/TaskSchedulingData.py:15 | a rendered integer is non-empty, has no comma and no parenthesis at either end, so `strip("()")` and `split(",")` leave it whole |
| SetupMatrices.KeyTrim | backend/service/implementation/TaskSchedulingData.py:15 | `strip("()")` on `"(a,b)"` leaves `a,b` |
| SetupMatrices.ParseKeyOf | backend/service/implementation/TaskSchedulingData.py:15 | a key whose inside is two comma-free integer texts parses to those integers |
| SetupMatrices.ParseEntries | backend/service/implementation/TaskSchedulingData.py:14-15 | each entry's key is read into a pair, or None where `int()` raises, and keeps its cost |
| SetupMatrices.CostTableLookup | backend/service/implementation/TaskSchedulingData.py:14-16 | a pair is in the table iff some key parses to it, and it holds the cost of the last such key |
| SetupMatrices.CostTableStep | backend/service/implementation/TaskSchedulingData.py:14-16 | one more parsed entry sets its pair to its cost and changes nothing else |
| SetupMatrices.NewSetupMatrix | backend/service/implementation/TaskSchedulingData.py:4-16 | construction succeeds iff every key parses; then `tasks` is kept, `n_tasks` is its length, and the table maps each parsed pair to its last cost; otherwise the error names the first key that does not parse |
| SetupMatrices.ReadCosts | backend/service/implementation/TaskSchedulingData.py:14-16 | the key loop sets every pair in order, and stops at the first key that does not read |
| SetupMatrices.GetSetupCost | backend/service/implementation/TaskSchedulingData.py:18-27 | the cost is finite iff the pair is recorded, and it is then the recorded cost; an absent pair is infinite |
| SetupMatrices.ValidateMatrix | backend/service/implementation/TaskSchedulingData.py:29-39 | true iff the table is complete; then every lookup from 0 or a task to a different task is finite |
| SetupMatrices.CompleteCoversRequiredPairs | backend/service/implementation/TaskSchedulingData.py:35-38 | completeness means every pair from 0 or a task to a different task is recorded |
| SetupMatrices.CompleteIgnoresReturnAndSelfPairs | backend/service/implementation/TaskSchedulingData.py:35-37 | removing entries `(i, i)` and `(j, 0)` never changes the verdict |
| TaskFamilies.FromAssignments | backend/service/scheduling/TaskFamily.py:5-9 | no assignments gives the empty map; otherwise the assignments are kept |
| TaskFamilies.SameFamilySymmetric | backend/service/scheduling/TaskFamily.py:11-22 | `same_family` is symmetric |
| TaskFamilies.SameFamilyMeansLabelled | backend/service/scheduling/TaskFamily.py:17-20 | same family iff both tasks are labelled with equal labels; never with an empty map |
| TaskFamilies.MinInterfamily | backend/service/scheduling/TaskFamily.py:24-41 | 0 with no labels or no qualifying pair; otherwise the least recorded cost between two different tasks not in one family |
| TaskFamilies.MinInterfamilyCost | backend/service/scheduling/TaskFamily.py:29-39 | the nested loops with a running minimum compute that value |
| SchedulingNodes.NewNode | backend/service/implementation/TaskSchedulingNode.py:5-19 | the identity is `(bitmask, last)`, `v2 = g`, `v1 = g + h`, and `h` and the parent are kept |
| SchedulingNodes.SetBitsSpec | backend/service/implementation/TaskSchedulingNode.py:36-38 | the set bits below `n` are listed once each, in increasing order |
| SchedulingNodes.SelectedByIndex | backend/service/implementation/TaskSchedulingNode.py:36-40 | the remaining tasks are `task_list[i]` for the set bits `i`, in increasing `i` |
| SchedulingNodes.SelectedMembership | backend/service/implementation/TaskSchedulingNode.py:36-40 | a task is remaining iff some set bit below the list length points at it |
| SchedulingNodes.SelectedIgnoresHighBits | backend/service/implementation/TaskSchedulingNode.py:37-38 | bits at or beyond the list length are ignored |
| SchedulingNodes.SelectedAll | backend/service/implementation/TaskSchedulingNode.py:36-40 | with every bit set, all of the list remains |
| SchedulingNodes.SelectedNone | backend/service/implementation/TaskSchedulingNode.py:36-40 | with no bit below the length set, nothing remains |
| SchedulingNodes.SelectedNonEmpty | backend/service/implementation/TaskSchedulingNode.py:36-40 | a set bit below the list length leaves at least one task |
| SchedulingNodes.SelectedRemove | backend/service/implementation/TaskSchedulingNode.py:36-40 | clearing bit `i` removes exactly one copy of `task_list[i]` |
| SchedulingNodes.SelectedSame | backend/service/implementation/TaskSchedulingNode.py:37-38 | bitmasks that agree below the length give the same tasks |
| SchedulingNodes.GetRemainingTasks | backend/service/implementation/TaskSchedulingNode.py:29-40 | the loop returns the tasks of the set bits, in list order |
| SchedulingNodes.NodeEqualsIsKeyEquality | backend/service/implementation/TaskSchedulingNode.py:42-53 | `NodeEquals` holds iff the other value is a node with the same bitmask and last task |
| SchedulingNodes.NodeEqualsEquivalence | backend/service/implementation/TaskSchedulingNode.py:42-53 | node equality is reflexive, symmetric and transitive |
| SchedulingNodes.EqualNodesHashEqually | backend/service/implementation/TaskSchedulingNode.py:42-61 | equal nodes hash equally |
| SchedulingNodes.HashIgnoresCostsAndParent | backend/service/implementation/TaskSchedulingNode.py:55-61 | `Hash` is the identity `(bitmask, last)`: it does not depend on costs, parent or depth |
| Schedules.AllBits | backend/service/implementation/TaskSchedulingSearch.py:364 | the initial bitmask has exactly bits `0 .. n-1` |
| Schedules.AllBitsCard | backend/service/implementation/TaskSchedulingSearch.py:364 | the initial bitmask has `n` bits |
| Schedules.SequenceCostFinite | backend/service/implementation/TaskSchedulingSearch.py:395-396 | a schedule's cost is finite iff every change-over it needs is recorded |
| Schedules.CompleteMeansFiniteSchedules | backend/service/implementation/TaskSchedulingData.py:29-39 | with a complete table, every order of distinct non-idle tasks has a finite cost |
| Schedules.WithoutIdleKeeps | backend/service/implementation/TaskSchedulingSearch.py:478 | dropping task 0 changes nothing when 0 does not occur |
| Schedules.WithoutIdleMembers | backend/service/implementation/TaskSchedulingSearch.py:478 | dropping task 0 keeps exactly the other tasks |
| Schedules.Reversed | backend/service/implementation/TaskSchedulingSearch.py:482 | `list.reverse()`: element `k` of the result is element `n-1-k` of the input |
| Schedules.ReversedSnoc | backend/service/implementation/TaskSchedulingSearch.py:482 | reversing a list with one more element puts that element first |
| SearchTrees.ArenaOkParents | backend/service/implementation/TaskSchedulingSearch.py:399 | in a well-formed arena, parents come before their children |
| SearchTrees.ArenaAppend | backend/service/implementation/TaskSchedulingSearch.py:384-406 | adding a successor of an existing node keeps the arena well formed |
| SearchTrees.PathLastsStable | backend/service/implementation/TaskSchedulingSearch.py:399 | adding nodes never changes the path of an existing node |
| SearchTrees.PathFacts | backend/service/implementation/TaskSchedulingSearch.py:384-406 | every node's path and remaining tasks together are the task list, its `g` is the cost of its path, its last task ends the path, and its depth is the path length |
| SearchTrees.ReconstructSequence | backend/service/implementation/TaskSchedulingSearch.py:464-483 | the loop returns the node's path from the root without task 0 |
| SearchTrees.SubsetsComplete | backend/service/implementation/TaskSchedulingSearch.py:43-46 | every bitmask over the list's positions is in the universe of identities |
| SearchTrees.InKeyUniverse | backend/service/implementation/TaskSchedulingSearch.py:43-46 | every node's identity lies in the finite universe of identities |
| OrderedLists.InsertPosition | backend/service/base/InformedSearch.py:28-37 | the insertion point follows every entry not above the new priority, and precedes the first strictly larger one |
| OrderedLists.InsertOrdered | backend/service/base/InformedSearch.py:28-37 | the loop inserts at that point, or appends when there is none |
| OrderedLists.InsertPositionAt | backend/service/base/InformedSearch.py:32-35 | the scan stops at index `i` iff the entry there has a strictly larger priority |
| OrderedLists.InsertOrderedContents | backend/service/base/InformedSearch.py:28-37 | the list grows by exactly the new entry, and the others keep their order |
| OrderedLists.InsertOrderedSorted | backend/service/base/InformedSearch.py:28-37 | a sorted list stays sorted, and an equal priority goes after earlier equal ones |
| Heuristics.CostsFrom | backend/service/scheduling/TaskSchedulingHeuristics.py:24-27 | the change-over costs from one task to each of a list |
| Heuristics.MinOf | backend/service/scheduling/TaskSchedulingHeuristics.py:24-27 | Python `min`: an element no larger than any other |
| Heuristics.Without | backend/service/scheduling/TaskSchedulingHeuristics.py:35 | the remaining tasks other than `from_task` |
| Heuristics.MaxNat | backend/service/scheduling/TaskSchedulingHeuristics.py:42 | Python `max`: an element no smaller than any other |
| Heuristics.SumAtLeastMax | backend/service/scheduling/TaskSchedulingHeuristics.py:40-42 | a sum of naturals is at least its largest term, so `sum - max` is never negative |
| Heuristics.OtherExists | backend/service/scheduling/TaskSchedulingHeuristics.py:32-35 | with more than one distinct remaining task there is another one to go to |
| Heuristics.MinOutFinite | backend/service/scheduling/TaskSchedulingHeuristics.py:33-36 | on a complete table, each task's cheapest way out is finite |
| Heuristics.SelectedOfInstance | backend/service/scheduling/TaskSchedulingHeuristics.py:21 | the remaining tasks of a well-formed instance are distinct and covered by the table |
| Heuristics.OutgoingCosts | backend/service/scheduling/TaskSchedulingHeuristics.py:30-37 | the loop fills `outgoing_costs` with each task's cheapest way out |
| Heuristics.OutgoingStep | backend/service/scheduling/TaskSchedulingHeuristics.py:31-37 | one more iteration appends the next task's cheapest way out |
| Heuristics.OutgoingAt | backend/service/scheduling/TaskSchedulingHeuristics.py:33-37 | entry `k` is task `k`'s cheapest way out |
| Heuristics.MinOutCost | backend/service/scheduling/TaskSchedulingHeuristics.py:33-36 | `min_out` is the least cost from the task to another remaining one |
| Heuristics.H1 | backend/service/scheduling/TaskSchedulingHeuristics.py:9-44 | h1 is the cheapest change-over from the last task, plus the sum of the cheapest ways out minus the largest of them; 0 at the goal |
| Heuristics.PopMin | backend/service/scheduling/TaskSchedulingHeuristics.py:118 | `heappop` removes and returns a least entry and keeps the others |
| SpanningTrees.TreeWeightSnoc | backend/service/scheduling/TaskSchedulingHeuristics.py:124 | joining one more task adds the weight of the edge that reached it |
| SpanningTrees.SymCostSymmetric | backend/service/scheduling/TaskSchedulingHeuristics.py:128-131 | the edge weight, the lesser of the two change-overs, is the same in both directions |
| SpanningTrees.TreeWeightIsSum | backend/service/scheduling/TaskSchedulingHeuristics.py:123-124 | a tree's weight is the sum of its edge weights |
| SpanningTrees.GreedyCut | backend/service/scheduling/TaskSchedulingHeuristics.py:117-133 | when the greedy tree joins its `k`-th task by an edge heavier than `c`, every edge between the first `k` tasks and the rest is heavier than `c` |
| SpanningTrees.HeavyCut | backend/service/scheduling/TaskSchedulingHeuristics.py:117-133 | a greedy edge heavier than a threshold closes a cut all of whose crossing edges are that heavy, with the tasks joined before it inside |
| SpanningTrees.ChargedHeavy | backend/service/scheduling/TaskSchedulingHeuristics.py:117-133 | each heavy greedy edge is charged to a heavy edge of any other spanning tree |
| SpanningTrees.ChargedApart | backend/service/scheduling/TaskSchedulingHeuristics.py:117-133 | different heavy greedy edges are charged to different edges of the other tree |
| SpanningTrees.FewerHeavyEdges | backend/service/scheduling/TaskSchedulingHeuristics.py:102-135 | for every weight `c`, the greedy tree has no more edges heavier than `c` than any spanning tree of the tasks |
| SpanningTrees.LayersIsSum | backend/service/scheduling/TaskSchedulingHeuristics.py:123-124 | a sum of edge weights is the number of edges heavier than each weight below a bound, added over those weights |
| SpanningTrees.GreedyIsMinimal | backend/service/scheduling/TaskSchedulingHeuristics.py:102-135 | the tree Prim's method grows weighs no more than any spanning tree of the same tasks: it is a minimum spanning tree |
| Heuristics.CardOfSeqSet | backend/service/scheduling/TaskSchedulingHeuristics.py:117 | the visited set is never larger than the task list, and equal size means every task is visited |
| Heuristics.SeqSetCard | backend/service/scheduling/TaskSchedulingHeuristics.py:117 | a list has no more distinct elements than entries |
| Heuristics.PushEdges | backend/service/scheduling/TaskSchedulingHeuristics.py:127-133 | the inner loop pushes one entry per unvisited task, at the symmetrised cost from the current task |
| Heuristics.PushedEdgesSnoc | backend/service/scheduling/TaskSchedulingHeuristics.py:127-133 | one more task in the loop pushes its edge iff it is unvisited |
| Heuristics.PushedEdgesSpec | backend/service/scheduling/TaskSchedulingHeuristics.py:127-133 | the pushed entries are edges from the current task to listed tasks, one for each unvisited task |
| Heuristics.VisitKeepsHeapInvariants | backend/service/scheduling/TaskSchedulingHeuristics.py:123-133 | after a visit, every heap entry is an edge from a visited task, and every unvisited task is reachable through the heap |
| Heuristics.MstSkip | backend/service/scheduling/TaskSchedulingHeuristics.py:120-121 | skipping an already visited entry keeps the tree invariant |
| Heuristics.MstVisit | backend/service/scheduling/TaskSchedulingHeuristics.py:123-133 | visiting a new task grows the tree by that entry's edge and adds its cost |
| Heuristics.MstFirstVisit | backend/service/scheduling/TaskSchedulingHeuristics.py:113-124 | the first pop visits `tasks[0]` at cost 0 |
| Heuristics.MstTreeGrows | backend/service/scheduling/TaskSchedulingHeuristics.py:123-124 | joining a new task by an edge from a visited one keeps the visit order distinct and linked, and adds the edge's weight |
| Heuristics.MstExit | backend/service/scheduling/TaskSchedulingHeuristics.py:117 | when the loop ends, the visited tasks form a spanning tree whose weight is `mst_cost`, covering every task when they are distinct |
| Heuristics.MstGreedyStep | backend/service/scheduling/TaskSchedulingHeuristics.py:117-123 | the heap entry popped is a lightest edge leaving the tree, so joining its task by it keeps every edge a lightest one across its cut |
| Heuristics.ComputeMst | backend/service/scheduling/TaskSchedulingHeuristics.py:102-135 | 0 for at most one task; otherwise the weight of the tree Prim's method grows over the symmetrised costs, which weighs no more than any spanning tree of the tasks, with each task visited once |
| Heuristics.DistinctOrderLength | backend/service/scheduling/TaskSchedulingHeuristics.py:117 | a visit order without repeats over the same tasks as a distinct list has its length |
| Heuristics.DistinctSetCard | backend/service/scheduling/TaskSchedulingHeuristics.py:117 | a list without repeats has as many distinct elements as entries |
| Heuristics.H2 | backend/service/scheduling/TaskSchedulingHeuristics.py:47-69 | 0 at the goal; otherwise the cheapest change-over from the last task plus the weight of a minimum spanning tree of the remaining tasks |
| Heuristics.FamilySwitches | backend/service/scheduling/TaskSchedulingHeuristics.py:82-93 | at most the number of families among the remaining tasks |
| Heuristics.H3 | backend/service/scheduling/TaskSchedulingHeuristics.py:72-98 | 0 at the goal; otherwise the family switches still needed times the cheapest change-over between families |
| Heuristics.BitmaskToTasks | backend/service/scheduling/TaskSchedulingHeuristics.py:138-150 | the tasks of the set bits, in list order |
| Heuristics.H1SingleTask | backend/service/scheduling/TaskSchedulingHeuristics.py:32-44 | with one task left, h1 is the change-over to it |
| Heuristics.HeuristicsVanishAtGoal | backend/service/scheduling/TaskSchedulingHeuristics.py:18-19 | h1 is 0 at the goal |
| Admissibility.SequenceCostCons | backend/service/implementation/TaskSchedulingSearch.py:395-396 | an order costs its first change-over plus the cost of the rest from that task |
| Admissibility.SelectedPrefix | backend/service/implementation/TaskSchedulingNode.py:36-40 | bits below `n` select the same tasks from a list as from its first `n` entries |
| Admissibility.SelectedDistinct | backend/service/implementation/TaskSchedulingNode.py:36-40 | the remaining tasks of a list without repeats have no repeats |
| Admissibility.OutgoingSum | backend/service/scheduling/TaskSchedulingHeuristics.py:30-40 | the sum of `outgoing_costs` is the sum of each remaining task's cheapest way out |
| Admissibility.PathCoversOut | backend/service/scheduling/TaskSchedulingHeuristics.py:30-44 | an order of distinct remaining tasks costs at least its first change-over plus the cheapest way out of every task but its last |
| Admissibility.OutSumPermutation | backend/service/scheduling/TaskSchedulingHeuristics.py:30-40 | the summed `min_out` of a list of tasks does not depend on the order they are listed in |
| Admissibility.MinFromLastBelow | backend/service/scheduling/TaskSchedulingHeuristics.py:24-27 | `min_cost_from_last` is at most the change-over from the last task into any remaining task |
| Admissibility.OutTotalBelow | backend/service/scheduling/TaskSchedulingHeuristics.py:30-43 | `total_outgoing` is at most the `min_out` of every task but the last of any order of the remaining tasks |
| Admissibility.H1ValueOfMany | backend/service/scheduling/TaskSchedulingHeuristics.py:24-44 | with several tasks left, h1 is `min_cost_from_last` plus the sum of `outgoing_costs` less its largest entry |
| Admissibility.H1OneAdmissible | backend/service/scheduling/TaskSchedulingHeuristics.py:21-44 | with one task left, h1 is at most the cost of the only order |
| Admissibility.H1ManyAdmissible | backend/service/scheduling/TaskSchedulingHeuristics.py:21-44 | with several distinct tasks left, h1 is at most the cost of every order of them |
| Admissibility.H1ValueAdmissible | backend/service/scheduling/TaskSchedulingHeuristics.py:21-44 | the h1 value never exceeds the cost of any order of the remaining tasks from the last task |
| Admissibility.H1Admissible | backend/service/scheduling/TaskSchedulingHeuristics.py:9-44 | on a complete table over distinct tasks, h1 never exceeds the cost of any way to finish from a node |
| Admissibility.PathIsSpanningTree | backend/service/scheduling/TaskSchedulingHeuristics.py:102-135 | an order through all the remaining tasks, each linked to the one before, is a spanning tree of them |
| Admissibility.PathOutweighsTree | backend/service/scheduling/TaskSchedulingHeuristics.py:102-135 | an order costs at least its first change-over plus its weight as a tree |
| Admissibility.H2Admissible | backend/service/scheduling/TaskSchedulingHeuristics.py:47-69 | when the remaining tasks have no repeats, h2 never exceeds the cost of any way to finish from a node |
| Admissibility.H2TreeAdmissible | backend/service/scheduling/TaskSchedulingHeuristics.py:58-69 | `min_connection` plus the weight of a least spanning tree is at most the cost of every order of the remaining tasks |
| Admissibility.InfiniteEstimateIsExact | backend/service/implementation/TaskSchedulingSearch.py:441-459 | when the table's task list starts with the searched tasks, an infinite h1 or h2 means every way to finish costs infinity |
| SchedulingSearch.CalculateHeuristic | backend/service/implementation/TaskSchedulingSearch.py:441-459 | h1, h2, or h3 when families are given, as named, and 0 for any other name; 0 at a goal, where `IsGoalState` says no bit is left |
| SchedulingSearch.Child | backend/service/implementation/TaskSchedulingSearch.py:387-396 | the successor for bit `i` clears that bit, runs `tasks[i]`, and adds its change-over |
| SchedulingSearch.SuccessorsStep | backend/service/implementation/TaskSchedulingSearch.py:384-406 | one more bit of the loop adds a successor iff the bit is set |
| SchedulingSearch.GenerateSuccessorsUniform | backend/service/implementation/TaskSchedulingSearch.py:411-436 | one successor per set bit in increasing order, with no estimate and priority `g` |
| SchedulingSearch.GenerateSuccessors | backend/service/implementation/TaskSchedulingSearch.py:371-406 | one successor per set bit in increasing order, with the named estimate as `h` and priority `g + h` |
| SchedulingSearch.EstimatedChild | backend/service/implementation/TaskSchedulingSearch.py:395-402 | the successor for bit `i`, with its estimate filled in and zero at a goal |
| SchedulingSearch.DepthBoundAppend | backend/service/implementation/TaskSchedulingSearch.py:122-136 | a child of a node below the limit keeps every node within the limit |
| SchedulingSearch.VisitOrder | backend/service/implementation/TaskSchedulingSearch.py:132-136 | successors are visited in order, or reversed for the depth-first searches |
| SchedulingSearch.ClosedSetReachesGoal | backend/service/implementation/TaskSchedulingSearch.py:56 | a set of identities closed under successors holds a goal identity |
| SchedulingSearch.PopKeys | backend/service/implementation/TaskSchedulingSearch.py:37 | popping an entry removes exactly its identity from the frontier and keeps it sorted |
| SchedulingSearch.PushKeys | backend/service/implementation/TaskSchedulingSearch.py:51-54 | pushing adds exactly the child's identity to the frontier |
| SchedulingSearch.ClosedUnderExpand | backend/service/implementation/TaskSchedulingSearch.py:43-54 | closing an expanded identity keeps closed identities' children closed or waiting |
| SchedulingSearch.ClosedUnderDrop | backend/service/implementation/TaskSchedulingSearch.py:43-46 | dropping a popped identity that is already closed keeps that property |
| SchedulingSearch.StartNode | backend/service/implementation/TaskSchedulingSearch.py:286-290 | all bits, last task 0, no cost; the priority is 0, `h` or `0 + h` as the driver orders |
| SchedulingSearch.PushChild | backend/service/implementation/TaskSchedulingSearch.py:51-54 | the child is appended to the arena and its entry is pushed (appended, or by `insert_ordered`), keeping the arena, frontier order and depth limit |
| SchedulingSearch.OfferSuccessor | backend/service/implementation/TaskSchedulingSearch.py:51-54 | one turn of the successor loop pushes the successor, with its depth and priority set, exactly when its identity is not closed, keeping the arena and frontier well formed |
| SchedulingSearch.Expand | backend/service/implementation/TaskSchedulingSearch.py:48-54 | every child identity not closed ends up waiting in the frontier as a node that succeeds the expanded one; nothing leaves the frontier; old nodes stay, new nodes hang off the expanded node, and under uniform cost each is priced by its `g` |
| SchedulingSearch.PushedChildren | backend/service/implementation/TaskSchedulingSearch.py:48-54 | each child identity not closed has a frontier node that succeeds the expanded node by that bit |
| SchedulingSearch.RecordExpand | backend/service/implementation/TaskSchedulingSearch.py:43-54 | closing a new identity and hanging its children off its node keeps the record: closed identities were expanded, parents were closed, one node per expanded identity |
| SchedulingSearch.CoverChildren | backend/service/implementation/TaskSchedulingSearch.py:128-136 | visiting all successors in the discipline's order covers every child identity |
| SchedulingSearch.InvSkip | backend/service/implementation/TaskSchedulingSearch.py:43-46 | skipping a closed or depth-cut node keeps the search invariant |
| SchedulingSearch.InvExpand | backend/service/implementation/TaskSchedulingSearch.py:43-54 | closing and expanding a node keeps the search invariant |
| SchedulingSearch.Advance | backend/service/implementation/TaskSchedulingSearch.py:43-54 | a popped non-goal node is skipped or closed and expanded; either the closed set grows inside the universe or the frontier shrinks; the expansion record and, under uniform cost, the cheapest-first invariant are kept |
| SchedulingSearch.CloseAndExpand | backend/service/implementation/TaskSchedulingSearch.py:43-54 | expanding a node closes its identity, so fewer identities stay open, keeps the search invariant, cheapest-first order and the record of expansions |
| SchedulingSearch.Conclude | backend/service/implementation/TaskSchedulingSearch.py:39-41 | at a goal, the answer is an order of the task list without 0, its cost is the cost of that order and the goal's `g`, and the order is the goal's path in the tree |
| SchedulingSearch.ExhaustedMeansCut | backend/service/implementation/TaskSchedulingSearch.py:56 | an empty frontier without a goal means the depth limit cut some node off |
| SchedulingSearch.Pop | backend/service/implementation/TaskSchedulingSearch.py:37 | `pop()` takes the last entry for a stack and `popleft()` or `pop(0)` the first entry otherwise |
| SchedulingSearch.Round | backend/service/implementation/TaskSchedulingSearch.py:36-54 | one pass either concludes with a valid schedule, which under uniform cost no schedule undercuts, or keeps the invariants and moves the measure down |
| SchedulingSearch.Search | backend/service/implementation/TaskSchedulingSearch.py:25-56 | a schedule found is an order of the task list with its true cost, and the path of a goal in the search tree; without a cutting limit one is always found; under uniform cost no order of the tasks costs less; the tree is rooted at the start, every parent's identity was expanded, and no identity was expanded twice |
| SchedulingSearch.RecordGivesTree | backend/service/implementation/TaskSchedulingSearch.py:25-56 | the expansion record as a tree: rooted at the start, parents before children, every parent expanded, one node per expanded identity |
| UniformCost.TasksOf | backend/service/implementation/TaskSchedulingSearch.py:387-396 | the tasks an order of bit positions runs, one per position |
| UniformCost.PrefixCheaper | backend/service/implementation/TaskSchedulingSearch.py:395-396 | dropping the last task of an order costs no more, and the full order adds the last change-over |
| UniformCost.BitOrderSnoc | backend/service/implementation/TaskSchedulingSearch.py:387-396 | a bit not yet cleared extends an order by its task |
| UniformCost.LastTaskBit | backend/service/implementation/TaskSchedulingSearch.py:387-396 | the last task of an order of the remaining tasks belongs to a set bit, and the rest orders the others |
| UniformCost.StepKey | backend/service/implementation/TaskSchedulingSearch.py:387-396 | one more task cleared from the bitmask: it was still set, and the new identity is the bitmask without it and that task last |
| UniformCost.ScheduleHasBitOrder | backend/service/implementation/TaskSchedulingSearch.py:387-396 | every order of the remaining tasks is run by some order of their bits that clears exactly those bits |
| UniformCost.CheapestStart | backend/service/implementation/TaskSchedulingSearch.py:198-202 | the start entry, priced 0, alone satisfies the cheapest-first invariant |
| UniformCost.HeadIsCheapest | backend/service/implementation/TaskSchedulingSearch.py:205-206 | the head of the sorted open list costs no more than any order of bits reaching an identity not yet closed |
| UniformCost.CheapestSkip | backend/service/implementation/TaskSchedulingSearch.py:212-214 | skipping a closed entry keeps the invariant |
| UniformCost.ThroughHead | backend/service/implementation/TaskSchedulingSearch.py:216-221 | an order whose prefix ends at the expanded node now waits in the open list at no more than its cost |
| UniformCost.CheapestExpand | backend/service/implementation/TaskSchedulingSearch.py:212-221 | closing and expanding the head keeps the invariant |
| UniformCost.GoalIsCheapest | backend/service/implementation/TaskSchedulingSearch.py:205-209 | a goal at the head of the open list costs no more than any schedule |
| SchedulingDrivers.GetInitialState | backend/service/implementation/TaskSchedulingSearch.py:357-366 | the start node and the bitmask with bits `0 .. n-1` set |
| SchedulingDrivers.BreadthFirstScheduling | backend/service/implementation/TaskSchedulingSearch.py:25-56 | always finds an order of the tasks, with its true cost |
| SchedulingDrivers.DepthFirstScheduling | backend/service/implementation/TaskSchedulingSearch.py:61-97 | always finds an order of the tasks, with its true cost |
| SchedulingDrivers.DepthLimitedScheduling | backend/service/implementation/TaskSchedulingSearch.py:99-138 | finds an order iff the limit reaches the number of tasks (or there are none) |
| SchedulingDrivers.IterativeDeepeningScheduling | backend/service/implementation/TaskSchedulingSearch.py:143-163 | finds a non-empty order iff some listed task is not 0 |
| SchedulingDrivers.UniformCostScheduling | backend/service/implementation/TaskSchedulingSearch.py:196-226 | always finds an order of the tasks, with its true cost, and no order of the tasks costs less |
| SchedulingDrivers.GreedyScheduling | backend/service/implementation/TaskSchedulingSearch.py:228-271 | always finds an order of the tasks, with its true cost |
| SchedulingDrivers.AStarScheduling | backend/service/implementation/TaskSchedulingSearch.py:273-317 | always finds an order of the tasks, with its true cost |
| SchedulingIda.IdaStarSearch | backend/service/implementation/TaskSchedulingSearch.py:641-676 | a solution is an order of the tasks costing at most the bound; any other answer is a value strictly above the bound, finite and at most `FCap`, or infinity, and infinity means the node has no finite way to finish when the table lists the searched tasks |
| SchedulingIda.ProbeChildren | backend/service/implementation/TaskSchedulingSearch.py:662-676 | the first solution among the successors, or else the least value they returned, which is above the bound and, when finite, at most `FCap`; infinity from all of them means the node has no finite way to finish when the table lists the searched tasks |
| SchedulingIda.ProbeChild | backend/service/implementation/TaskSchedulingSearch.py:664-669 | each successor extends the path, has fewer tasks left, a zero estimate at a goal, and keeps the estimate of the named heuristic |
| SchedulingIda.CutOffDoomed | backend/service/implementation/TaskSchedulingSearch.py:656-657 | a node cut off with an infinite `g + h` has no finite way to finish |
| SchedulingIda.CutOffInArena | backend/service/implementation/TaskSchedulingSearch.py:656-657 | a node on a well-formed probe path with an infinite f-value has no finite way to finish |
| SchedulingIda.DoomedThrough | backend/service/implementation/TaskSchedulingSearch.py:664-669 | a way to finish that starts with a successor's task costs infinity when that successor has no finite way to finish |
| SchedulingIda.ChildrenDoomed | backend/service/implementation/TaskSchedulingSearch.py:662-676 | a node none of whose successors has a finite way to finish has none either |
| SchedulingIda.AgreementIgnoresDepth | backend/service/implementation/TaskSchedulingSearch.py:395-402 | the estimate does not depend on a node's depth |
| SchedulingIda.StartDoomed | backend/service/implementation/TaskSchedulingSearch.py:345-346 | a start node with no finite way to finish means every order of the tasks costs infinity |
| SchedulingIda.IdaStarScheduling | backend/service/implementation/TaskSchedulingSearch.py:322-352 | the first bound is the start node's estimate of the named heuristic; the bounds tried strictly increase and every later one is finite and at most `FCap`; a solution is a valid order costing at most the last bound; giving up, when the rounds exceed `FCap` (or were not all used) and the table lists the searched tasks, means every order costs infinity |
| SchedulingIda.ProbeRounds | backend/service/implementation/TaskSchedulingSearch.py:340-351 | the retry loop: each bound is the value the previous probe returned, so the bounds climb from the start's estimate within `FCap`; an infinite return, and running out of more than `FCap` rounds, both mean every order costs infinity when the table lists the searched tasks |
| SchedulingIda.NextBoundClimbs | backend/service/implementation/TaskSchedulingSearch.py:350-351 | a finite returned value above the last bound and at most `FCap` keeps the bounds climbing |
| SchedulingIda.ClimbedPast | backend/service/implementation/TaskSchedulingSearch.py:340-351 | bounds that rise by at least one each round and stay within `FCap` number at most `FCap + 1`, so more rounds than `FCap` always conclude |
| ProbeBounds.EstimateCapped | backend/service/scheduling/TaskSchedulingHeuristics.py:9-98 | every finite h1, h2 or h3 estimate is at most `|m.tasks| + 1` times the dearest recorded change-over |
| ProbeBounds.H1Capped | backend/service/scheduling/TaskSchedulingHeuristics.py:9-44 | h1 is at most one change-over from the last task plus one per remaining task |
| ProbeBounds.H2Capped | backend/service/scheduling/TaskSchedulingHeuristics.py:47-69 | h2 is at most one change-over from the last task plus one per spanning-tree edge |
| ProbeBounds.ArenaCostCapped | backend/service/implementation/TaskSchedulingSearch.py:664-669 | along a probe path, a node with `r` of the `n` tasks left has spent at most `n - r` change-overs |
| ProbeBounds.ProbeValueCapped | backend/service/implementation/TaskSchedulingSearch.py:653-656 | the `g + h` a probe returns, when finite, is at most `FCap` |
| SchedulingBidirectional.BackArenaAppend | backend/service/implementation/TaskSchedulingSearch.py:573-578 | adding a reverse successor keeps the backward arena well formed |
| SchedulingBidirectional.SelectedAdd | backend/service/implementation/TaskSchedulingSearch.py:598 | setting a clear bit adds exactly one copy of its task |
| SchedulingBidirectional.BackPathFacts | backend/service/implementation/TaskSchedulingSearch.py:582-609 | a backward node's path lists the tasks of its set bits, its cost is the backward cost of that path, and its last task ends the path |
| SchedulingBidirectional.BackInKeyUniverse | backend/service/implementation/TaskSchedulingSearch.py:574-578 | every backward identity lies in the universe of identities |
| SchedulingBidirectional.GenerateSuccessorsReverse | backend/service/implementation/TaskSchedulingSearch.py:582-609 | one successor per clear bit, in increasing order, setting that bit and adding `cost(task, last)` |
| SchedulingBidirectional.VisitNew | backend/service/implementation/TaskSchedulingSearch.py:543-545 | visiting a new identity uses up one of the universe |
| SchedulingBidirectional.VisitMapOk | backend/service/implementation/TaskSchedulingSearch.py:543-545 | the visited map still points at nodes with the identities it maps |
| SchedulingBidirectional.VisitOk | backend/service/implementation/TaskSchedulingSearch.py:541-545 | visiting a new identity keeps a side consistent and keeps its measure |
| SchedulingBidirectional.VisitCount | backend/service/implementation/TaskSchedulingSearch.py:543-545 | a visit moves one identity from the unvisited ones to the queue |
| SchedulingBidirectional.SharedKey | backend/service/implementation/TaskSchedulingSearch.py:533-566 | two sides share an identity only when the task list is empty, has a repeat, or lists task 0 |
| SchedulingBidirectional.MeetAt | backend/service/implementation/TaskSchedulingSearch.py:533-537 | the answer at a meeting is the two paths joined, at the summed cost |
| SchedulingBidirectional.ReconstructBidirectionalPath | backend/service/implementation/TaskSchedulingSearch.py:611-636 | the forward tasks from the root, then the backward tasks from the meeting node, both without 0 |
| SchedulingBidirectional.VisitForward | backend/service/implementation/TaskSchedulingSearch.py:541-545 | a new forward identity joins the arena, the queue and the visited map |
| SchedulingBidirectional.VisitBackward | backend/service/implementation/TaskSchedulingSearch.py:574-578 | a new backward identity joins the arena, the queue and the visited map |
| SchedulingBidirectional.ExpandForward | backend/service/implementation/TaskSchedulingSearch.py:516-547 | meets iff the popped identity was visited backwards; otherwise the forward side stays consistent and its measure drops |
| SchedulingBidirectional.ExpandBackward | backend/service/implementation/TaskSchedulingSearch.py:549-580 | meets iff the popped identity was visited forwards; otherwise the backward side stays consistent and its measure drops |
| SchedulingBidirectional.EmptyMeets | backend/service/implementation/TaskSchedulingSearch.py:535-537 | with nothing to schedule, a meeting answers `([], 0)` |
| SchedulingBidirectional.BidirectionalScheduling | backend/service/implementation/TaskSchedulingSearch.py:168-191 | a meeting answers with both paths; no tasks gives `([], 0)`; distinct tasks other than 0 never meet, giving `([], inf)` |
| SearchPaths.PathStates | backend/service/UninformedSearch.py:54-60 | a node's path ends at its own state |
| SearchPaths.PathStatesStable | backend/service/UninformedSearch.py:54-60 | adding nodes does not change existing paths |
| SearchPaths.ShowPath | backend/service/UninformedSearch.py:54-60 | following the parents and reversing gives the path from the root |
| GraphUninformed.IndexOf | backend/service/UninformedSearch.py:99 | `nodes.index(x)` is the first position of `x` |
| GraphUninformed.SuccessorsGraph | backend/service/UninformedSearch.py:8-13 | the adjacency list, forwards for order 1 and reversed for order -1 |
| GraphUninformed.TreeLinked | backend/service/UninformedSearch.py:100-107 | a search tree's parents come before their children |
| GraphUninformed.TreeAppend | backend/service/UninformedSearch.py:100-107 | adding a child along an edge keeps the tree well formed |
| GraphUninformed.TreePath | backend/service/UninformedSearch.py:100-111 | every node's path is a walk from the root, one state longer than its depth |
| GraphUninformed.ClosedWalk | backend/service/UninformedSearch.py:112 | a set of states that no edge leaves holds the end of every walk that starts in it |
| GraphUninformed.Visit | backend/service/UninformedSearch.py:104-108 | visiting creates one child node and leaves existing nodes alone |
| GraphUninformed.VisitMap | backend/service/UninformedSearch.py:106-107 | the visited map still points at nodes with the states it maps |
| GraphUninformed.VisitCount | backend/service/UninformedSearch.py:106-108 | a visit moves one state from the unvisited ones to the frontier |
| GraphUninformed.RemoveOne | backend/service/UninformedSearch.py:107 | marking a new state visited leaves one fewer unvisited |
| GraphUninformed.VisitOk | backend/service/UninformedSearch.py:104-108 | visiting a new state along an edge keeps a side well formed and its measure |
| GraphUninformed.EdgeTarget | backend/service/UninformedSearch.py:8-13 | the end of an edge is a node of a well-formed graph |
| GraphUninformed.VisitFrontier | backend/service/UninformedSearch.py:108 | the frontier still names nodes of the arena |
| GraphUninformed.VisitSettled | backend/service/UninformedSearch.py:103-108 | visiting keeps every other node settled |
| GraphUninformed.Expand | backend/service/UninformedSearch.py:99-111 | expanding a node either finds a walk to the goal within the limit, or keeps the invariant and the measure |
| GraphUninformed.Consider | backend/service/UninformedSearch.py:104-111 | one successor: a new state is visited and queued, and the goal answers with its path as soon as it is generated |
| GraphUninformed.TreeSearch | backend/service/UninformedSearch.py:95-112 | a path found is a walk from start to goal within the limit; without a limit, None means no walk exists |
| GraphUninformed.InitialSide | backend/service/UninformedSearch.py:85-93 | the root alone satisfies the search invariant |
| GraphUninformed.SearchStep | backend/service/UninformedSearch.py:95-111 | one pass finds a walk, or keeps the invariant and lowers the measure |
| GraphUninformed.Pop | backend/service/UninformedSearch.py:95-97 | `popleft` for a queue, `pop` for a stack |
| GraphUninformed.PopKeeps | backend/service/UninformedSearch.py:96-98 | after a pop the side is still well formed and one node shorter |
| GraphUninformed.Exhausted | backend/service/UninformedSearch.py:112 | an empty frontier without a limit means no walk leads from start to goal |
| GraphUninformed.BreadthFirstSearch | backend/service/UninformedSearch.py:80-112 | `[start]` when start is the goal; otherwise a walk to the goal, or None exactly when none exists |
| GraphUninformed.DepthFirstSearch | backend/service/UninformedSearch.py:116-148 | `[start]` when start is the goal; otherwise a walk to the goal, or None exactly when none exists |
| GraphUninformed.DepthLimitedSearch | backend/service/UninformedSearch.py:152-185 | a walk to the goal of at most `limit + 1` states |
| GraphUninformed.IterativeDeepeningSearch | backend/service/UninformedSearch.py:189-223 | None when `max_limit <= 1`; otherwise `[start]` at the goal, or a walk of at most `max_limit` states |
| GraphUninformed.ShowPathBidirectional | backend/service/UninformedSearch.py:64-76 | the start side's path, then the goal side's path reversed without the meeting state; length `|p1| + |p2| - 1` |
| GraphUninformed.Joined | backend/service/UninformedSearch.py:64-76 | the joined path starts at start and ends at goal, its first part is the first walk, and the rest reversed is the second |
| GraphUninformed.ExpandLevel | backend/service/UninformedSearch.py:253-273 | a whole level is expanded, stopping at the first new state the other side has visited |
| GraphUninformed.PopFront | backend/service/UninformedSearch.py:256 | a popped side stays well formed and one node shorter |
| GraphUninformed.ExpandMeeting | backend/service/UninformedSearch.py:258-270 | one node of a level: a meeting state is visited by both sides |
| GraphUninformed.SingleMeets | backend/service/UninformedSearch.py:227-229 | a one-state path meets itself |
| GraphUninformed.BidirectionalSearch | backend/service/UninformedSearch.py:227-296 | `[start]` at the goal; a path found is a walk from start to the meeting state followed by a walk from the goal to it, reversed |
| GraphUninformed.Answer | backend/service/UninformedSearch.py:269-292 | the answer at a meeting state joins the two sides' walks |
| GraphInformed.GraphSuccessors | backend/service/base/InformedSearch.py:17-23 | the adjacency list, forwards for step 1 and reversed for step -1 |
| GraphInformed.GraphClosed | backend/service/base/InformedSearch.py:17-23 | a well-formed graph never leads out of its nodes |
| GraphInformed.GraphHeuristic | backend/service/base/InformedSearch.py:56-84 | the table entry is 0 exactly when the two states are equal, and between 50 and 100 otherwise |
| GraphInformed.EstimatesShape | backend/service/base/InformedSearch.py:61-82 | the table is 20 by 20, with 0 on the diagonal and 50 to 100 elsewhere |
| GraphInformed.EstimatesRows0 | backend/service/base/InformedSearch.py:61-82 | the same for rows 0 to 4 |
| GraphInformed.EstimatesRows5 | backend/service/base/InformedSearch.py:61-82 | the same for rows 5 to 9 |
| GraphInformed.EstimatesRows10 | backend/service/base/InformedSearch.py:61-82 | the same for rows 10 to 14 |
| GraphInformed.EstimatesRows15 | backend/service/base/InformedSearch.py:61-82 | the same for rows 15 to 19 |
| GraphInformed.UniformCost | backend/service/base/InformedSearch.py:88-119 | `[start]` at the goal; a path found is a walk whose weights sum to the cost; None exactly when no walk exists |
| GraphInformed.Greedy | backend/service/base/InformedSearch.py:124-155 | the same, with children ordered by their estimate |
| GraphInformed.AStar | backend/service/base/InformedSearch.py:160-191 | the same, with children ordered by cost plus estimate |
| GraphInformed.TotalAbove | backend/service/base/InformedSearch.py:235-240 | values all above `b` sum to more than `b` times their number |
| GraphInformed.MeanAbove | backend/service/base/InformedSearch.py:240 | the mean of values all above the bound is above it |
| GraphInformed.IdaStar | backend/service/base/InformedSearch.py:196-240 | the first bound is the start's estimate; each later bound is the mean of the previous round's set-aside f-values, all above that round's bound and at most `RoundCap`, so the bounds strictly increase; a path found is a walk with its cost; None means no walk exists when the rounds exceed `RoundCap` (or were not all used) |
| GraphInformed.MeanWithin | backend/service/base/InformedSearch.py:240 | the mean of values between two whole numbers lies between them |
| GraphInformed.EstimateCapped | backend/service/base/InformedSearch.py:226-227 | a child's path cost (at most that of a simple path) plus its estimate is at most `RoundCap` |
| GraphInformed.MeanHistoryGrows | backend/service/base/InformedSearch.py:229-240 | a round whose set-aside values exceed its bound and are at most `RoundCap` extends the history with their mean, which exceeds the number of rounds run |
| WeightedSearch.TreeLinked | backend/service/base/InformedSearch.py:111-118 | a search tree's parents come before their children |
| WeightedSearch.PathWeights | backend/service/base/InformedSearch.py:42-51 | one step cost per edge of a node's path |
| WeightedSearch.TreeWalk | backend/service/base/InformedSearch.py:111-118 | every node's path is a walk from the root whose weights sum to its `v2` |
| WeightedSearch.ClosedWalk | backend/service/base/InformedSearch.py:119 | a set closed under successors holds the end of every walk starting in it |
| WeightedSearch.RecordedLower | backend/service/base/InformedSearch.py:115-117 | lowering one state's recorded cost lowers the sum over any list holding it |
| WeightedSearch.ProgressTrans | backend/service/base/InformedSearch.py:101-118 | progress of the loop is transitive |
| WeightedSearch.OverBoundTrans | backend/service/base/InformedSearch.py:229-235 | the set-aside priorities only grow, and stay above the bound |
| WeightedSearch.Push | backend/service/base/InformedSearch.py:116-118 | the new node joins the arena, becomes its state's visited node, and its entry goes in by `insert_ordered` |
| WeightedSearch.PushOk | backend/service/base/InformedSearch.py:116-118 | a pushed child keeps the search state well formed and waits in the open list |
| WeightedSearch.PushQueue | backend/service/base/InformedSearch.py:118 | the open list keeps its entries and gains the new one |
| WeightedSearch.PushTree | backend/service/base/InformedSearch.py:116 | a child along an edge keeps the tree well formed |
| WeightedSearch.PushStates | backend/service/base/InformedSearch.py:116 | every node's state stays in the universe |
| WeightedSearch.PushVisited | backend/service/base/InformedSearch.py:117 | the visited map still points at nodes with the states it maps |
| WeightedSearch.SettledKept | backend/service/base/InformedSearch.py:111-118 | settled states stay settled |
| WeightedSearch.PushProgress | backend/service/base/InformedSearch.py:115-118 | a new state lowers the unvisited count; a cheaper way lowers the recorded costs; no recorded cost rises |
| WeightedSearch.NoHigherTrans | backend/service/base/InformedSearch.py:115-117 | recorded costs that never rise compose |
| WeightedSearch.Consider | backend/service/base/InformedSearch.py:111-118 | one child: set aside when over the bound; otherwise pushed iff its state is unvisited or reached more cheaply |
| WeightedSearch.Unmoved | backend/service/base/InformedSearch.py:111-118 | leaving the state alone is allowed progress |
| WeightedSearch.SetAside | backend/service/base/InformedSearch.py:234-235 | a child set aside still counts as considered |
| WeightedSearch.Skip | backend/service/base/InformedSearch.py:115 | a child whose state is visited at no higher cost counts as considered |
| WeightedSearch.PushPartial | backend/service/base/InformedSearch.py:116-118 | a pushed child counts as considered |
| WeightedSearch.Finished | backend/service/base/InformedSearch.py:111-118 | a node whose successors were all considered is settled |
| WeightedSearch.Expand | backend/service/base/InformedSearch.py:108-118 | expanding a node keeps the invariant and moves the search on |
| WeightedSearch.PopKeeps | backend/service/base/InformedSearch.py:101-106 | popping a non-goal leaves every other state settled |
| WeightedSearch.Exhausted | backend/service/base/InformedSearch.py:119 | an empty open list with nothing set aside means no walk reaches the goal |
| WeightedSearch.Initial | backend/service/base/InformedSearch.py:95-99 | the root alone satisfies the invariant |
| WeightedSearch.DisplayPath | backend/service/base/InformedSearch.py:42-51 | the path is a walk from the root whose weights sum to the node's `v2` |
| WeightedSearch.Step | backend/service/base/InformedSearch.py:101-118 | one pass keeps the invariant and lowers the measure |
| WeightedSearch.BestFirst | backend/service/base/InformedSearch.py:101-119 | a path found is a walk with its cost; set-aside priorities exceed the bound and, when every priority of a simple path is at most `cap`, are at most `cap`; nothing found with nothing set aside means no walk exists |
| WeightedSearch.PathCostBelow | backend/service/base/InformedSearch.py:112-118 | the tree holds only simple paths, so a node's path cost plus one more step is at most `PathCap`, the number of states times the dearest step |
| WeightedSearch.PushSimple | backend/service/base/InformedSearch.py:115-118 | a child is pushed only when its state is unvisited or reached more cheaply, so it never repeats a state of its own path and the tree keeps only simple paths |
| WeightedSearch.NoRepeatsWithin | backend/service/base/InformedSearch.py:112-118 | a path without repeated states, drawn from the universe, is no longer than the universe |
| WeightedSearch.Drive | backend/service/base/InformedSearch.py:88-119 | `[start]` at the goal, otherwise the loop; NoPath exactly when no walk exists |
| GridSearch.MovesExact | backend/service/InformedSearch.py:19-42 | at most four moves, each one passing its bounds test (right `y+1 < ny`, left `y-1 >= 0`, down `x+1 < nx`, up `x-1 >= 0`) onto a cell whose Python lookup is 0, right (5), left (7), down (2) or up (3); and every such move is listed |
| GridSearch.GridSuccessors | backend/service/InformedSearch.py:19-42 | IndexError (None) exactly when a move passes its bounds test but its cell is outside Python's index range; otherwise the moves right, left, down and up in turn, with their costs |
| GridSearch.SuccessorsGrid | backend/service/UninformedSearch.py:18-50 | IndexError in the same cases; otherwise the same cells in the same order, without costs |
| GridSearch.NeighboursAreMoves | backend/service/UninformedSearch.py:18-50 | the uninformed neighbours are the informed moves' cells |
| GridSearch.CellsOfAppend | backend/service/UninformedSearch.py:18-50 | neighbour lists append like their move lists |
| GridSearch.RegionClosed | backend/service/InformedSearch.py:19-42 | the board widened to take in `start` (which may lie off the board or at negative coordinates) holds `start`, and no move leaves it |
| GridSearch.GridWalk | backend/service/InformedSearch.py:19-42 | every step of a walk is one move that passes its bounds test onto a cell whose lookup is 0, at that move's cost |
| GridSearch.UniformCost | backend/service/InformedSearch.py:109-148 | `[start]` at the end; a path found is a walk whose move costs sum to the cost; None exactly when no walk exists |
| GridSearch.Greedy | backend/service/InformedSearch.py:152-191 | the same, with children ordered by their estimate |
| GridSearch.AStar | backend/service/InformedSearch.py:195-234 | the same, with children ordered by cost plus estimate |
| GridSearch.Least | backend/service/InformedSearch.py:291 | `min` of the priorities set aside |
| GridSearch.IdaStar | backend/service/InformedSearch.py:238-293 | the first limit is the start's estimate; each later limit is the least of the previous round's set-aside priorities, all above that round's limit and at most `RoundCap`, so the limits strictly increase; a path found is a walk with its cost; None means no walk exists when the rounds exceed `RoundCap` (or were not all used) |
| GridSearch.EstimateCapped | backend/service/InformedSearch.py:275-276 | the start's estimate, and any child's path cost (at most that of a simple path) plus estimate, are at most `RoundCap` |
| GridSearch.NextLimit | backend/service/InformedSearch.py:291 | the least of whole priorities above the limit is above it, at least one more than the rounds run, and at most `RoundCap` |
| GridSearch.LeastHistoryGrows | backend/service/InformedSearch.py:286-291 | a round whose set-aside priorities exceed its limit and are at most `RoundCap` extends the history with the least of them |
| GraphFiles.Tokens | frontend/src/features/Methods/utils/parseFileContent.ts:4-8 | one trimmed token per comma-separated part |
| GraphFiles.Flatten | frontend/src/features/Methods/utils/parseFileContent.ts:6 | `flat`: a token is present iff some line has it |
| GraphFiles.Distinct | frontend/src/features/Methods/utils/parseFileContent.ts:5-6 | `Array.from(new Set(..))` keeps exactly the same elements |
| GraphFiles.DistinctOrder | frontend/src/features/Methods/utils/parseFileContent.ts:5-6 | the elements come out once each, in order of first appearance |
| GraphFiles.IndexOfAt | frontend/src/features/Methods/utils/parseFileContent.ts:5-6 | the first position of `x` is where it occurs with no earlier copy |
| GraphFiles.NonEmpty | frontend/src/features/Methods/utils/parseFileContent.ts:7 | the filter drops exactly the empty strings |
| GraphFiles.NonEmptyOrder | frontend/src/features/Methods/utils/parseFileContent.ts:5-7 | dropping empty strings keeps the rest distinct and in order |
| GraphFiles.AppendOrder | frontend/src/features/Methods/utils/parseFileContent.ts:5-7 | appending a later first appearance keeps distinctness and order |
| GraphFiles.ParseFileContent | frontend/src/features/Methods/utils/parseFileContent.ts:3-10 | one token list per line; the nodes are exactly the non-empty tokens |
| GraphFiles.ParseFileContentNodes | frontend/src/features/Methods/utils/parseFileContent.ts:5-7 | the nodes have no duplicates and are in order of first appearance |
| GraphFiles.Targets | frontend/src/features/Methods/utils/parseGraph.ts:5-10 | every listed target is a node |
| GraphFiles.TargetsMember | frontend/src/features/Methods/utils/parseGraph.ts:5-10 | a target is listed for a position iff an edge from the node first at that position leads to it and both ends are nodes |
| GraphFiles.ParseGraph | frontend/src/features/Methods/utils/parseGraph.ts:3-13 | one list per node; each edge whose ends are both nodes appends its target, in edge order, to the list of its source's first position |
| TaskFiles.MatchSetupLine | frontend/src/features/TaskSchedule/utils/parseTaskFile.ts:25 | a match has digit ids and a digit cost |
| TaskFiles.MatchIds | frontend/src/features/TaskSchedule/utils/parseTaskFile.ts:25 | the two leading digit runs |
| TaskFiles.MatchIdsSound | frontend/src/features/TaskSchedule/utils/parseTaskFile.ts:25 | matched ids are what the line starts with |
| TaskFiles.MatchSetupLineSound | frontend/src/features/TaskSchedule/utils/parseTaskFile.ts:25 | a matched line consists exactly of its parts |
| TaskFiles.MatchSetupLineComplete | frontend/src/features/TaskSchedule/utils/parseTaskFile.ts:25 | every well-formed line matches, into its own parts |
| TaskFiles.MatchSetupLineOf | frontend/src/features/TaskSchedule/utils/parseTaskFile.ts:25 | ids and a number written to the end match as those parts |
| TaskFiles.MatchIdsComplete | frontend/src/features/TaskSchedule/utils/parseTaskFile.ts:25 | `a,b:` followed by anything matches the ids `a` and `b` |
| TaskFiles.Apply | frontend/src/features/TaskSchedule/utils/parseTaskFile.ts:31 | writing a line's entry keeps the keys distinct |
| TaskFiles.Ids | frontend/src/features/TaskSchedule/utils/parseTaskFile.ts:34-35 | task 0 is never added |
| TaskFiles.SetupOf | frontend/src/features/TaskSchedule/utils/parseTaskFile.ts:18-37 | the setup record has distinct keys |
| TaskFiles.TaskIds | frontend/src/features/TaskSchedule/utils/parseTaskFile.ts:34-35 | the task set never holds 0 |
| TaskFiles.Prefix | frontend/src/features/TaskSchedule/utils/parseTaskFile.ts:18-37 | one more line applies its entry to the record and adds its ids |
| TaskFiles.Add | frontend/src/features/TaskSchedule/utils/parseTaskFile.ts:34-35 | `Set.add` keeps the elements distinct and adds exactly `x` |
| TaskFiles.Insert | frontend/src/features/TaskSchedule/utils/parseTaskFile.ts:40 | inserting into an increasing list keeps it increasing and adds exactly `x` |
| TaskFiles.Sort | frontend/src/features/TaskSchedule/utils/parseTaskFile.ts:40 | the same numbers, in increasing order |
| TaskFiles.ParseTaskFile | frontend/src/features/TaskSchedule/utils/parseTaskFile.ts:9-43 | the record the matched lines write; the tasks increasing and exactly the non-zero ids mentioned; no families |
| TaskFiles.ReadLine | frontend/src/features/TaskSchedule/utils/parseTaskFile.ts:19-36 | a matched line sets its key's cost and adds its non-zero ids |
| TaskFiles.SetupKeys | frontend/src/features/TaskSchedule/utils/parseTaskFile.ts:28-35 | every key names two ids, each 0 or a task, and the backend parses it back into those ids |
| TaskFiles.LaterLineWins | frontend/src/features/TaskSchedule/utils/parseTaskFile.ts:31 | the last line for a transition decides its cost |
| TaskFormat.TaskTexts | frontend/src/features/TaskSchedule/utils/formatTaskData.ts:9 | each task is written in decimal |
| TaskFormat.SetupLines | frontend/src/features/TaskSchedule/utils/formatTaskData.ts:12-14 | one `key: value` line per entry, in record order |
| TaskFormat.FamilyLines | frontend/src/features/TaskSchedule/utils/formatTaskData.ts:17-21 | one `task: family` line per entry, in record order |
| TaskFormat.Unassigned | frontend/src/features/TaskSchedule/utils/formatTaskData.ts:74-75 | the tasks that no family key names |
| TaskFormat.ValidateTaskData | frontend/src/features/TaskSchedule/utils/formatTaskData.ts:30-83 | the errors in order: no tasks, empty matrix, missing transitions when there are at least two tasks, tasks without a family when families are given |
| TaskFormat.CountMissing | frontend/src/features/TaskSchedule/utils/formatTaskData.ts:45-65 | the number of failed pair checks plus the uncovered transitions from 0 |
| TaskFormat.CountPairsMissing | frontend/src/features/TaskSchedule/utils/formatTaskData.ts:47-57 | the outer loop counts the failed checks over every ordered pair |
| TaskFormat.CountRowMissing | frontend/src/features/TaskSchedule/utils/formatTaskData.ts:48-56 | the inner loop counts the failed checks from one task |
| TaskFormat.CountInitialMissing | frontend/src/features/TaskSchedule/utils/formatTaskData.ts:60-65 | counts the tasks without a truthy cost from 0 |
| TaskFormat.RowCountStep | frontend/src/features/TaskSchedule/utils/formatTaskData.ts:48-56 | one more column adds one iff its check fails |
| TaskFormat.RowCountZero | frontend/src/features/TaskSchedule/utils/formatTaskData.ts:48-56 | a row counts nothing iff no check in it fails |
| TaskFormat.PairCountZero | frontend/src/features/TaskSchedule/utils/formatTaskData.ts:47-57 | the pairs count nothing iff no pair check fails |
| TaskFormat.MissingZero | frontend/src/features/TaskSchedule/utils/formatTaskData.ts:44-69 | nothing is missing iff every needed transition has a truthy cost |
| TaskFormat.ZeroCostIsMissing | frontend/src/features/TaskSchedule/utils/formatTaskData.ts:62 | a recorded cost of zero, written `0` or `0.0`, is not `Truthy`, so it counts as missing |
| Strings.DigitChar | frontend/src/features/TaskSchedule/utils/formatTaskData.ts:9 | the digit character of a value below 10 |
| Strings.NatToString | frontend/src/features/TaskSchedule/utils/formatTaskData.ts:9 | decimal text without a leading zero |
| Strings.NatToStringRoundTrip | frontend/src/features/TaskSchedule/components/TaskSchedulingForm.tsx:98 | reading rendered digits gives the number back |
| Strings.Split | frontend/src/features/TaskSchedule/components/TaskSchedulingForm.tsx:66 | `split` gives at least one part |
| Strings.SplitPrefix | frontend/src/features/TaskSchedule/components/TaskSchedulingForm.tsx:66 | text before the first separator is the first part |
| Strings.SplitNoSep | frontend/src/features/TaskSchedule/components/TaskSchedulingForm.tsx:116 | text without the separator is one part |
| Strings.SplitJoin | frontend/src/features/TaskSchedule/utils/formatTaskData.ts:9-14 | splitting a join gives the parts back when none holds the separator |
| Strings.JoinEnds | frontend/src/features/TaskSchedule/utils/formatTaskData.ts:14-20 | a join of non-empty parts starts as the first and ends as the last |
| Strings.TrimIdentity | frontend/src/features/TaskSchedule/components/TaskSchedulingForm.tsx:66-91 | trimming text with no white space at its ends changes nothing |
| Strings.TrimmedLines | frontend/src/features/TaskSchedule/components/TaskSchedulingForm.tsx:66-91 | joined lines, trimmed and split again, come back |
| JsRecords.DropTrailingZeros | frontend/src/features/TaskSchedule/components/TaskSchedulingForm.tsx:73 | the longest prefix without trailing zeros |
| JsRecords.ParseFloat | frontend/src/features/TaskSchedule/components/TaskSchedulingForm.tsx:73 | `parseFloat` gives a canonical decimal |
| JsRecords.ParseRender | frontend/src/features/TaskSchedule/utils/formatTaskData.ts:13 | `ParseFloat` reads back the text `Render` writes for a number as that number |
| JsRecords.DigitPrefix | frontend/src/features/TaskSchedule/components/TaskSchedulingForm.tsx:98-117 | `parseInt` reads the longest run of radix digits |
| JsRecords.RadixDecimal | frontend/src/features/TaskSchedule/components/TaskSchedulingForm.tsx:117 | decimal digits read as their value |
| JsRecords.ParseIntNegative | frontend/src/features/TaskSchedule/components/TaskSchedulingForm.tsx:117 | a minus sign before digits reads as the negated value |
| JsRecords.NegativeDigits | frontend/src/features/TaskSchedule/components/TaskSchedulingForm.tsx:117 | the same, for a text given with its minus sign |
| JsRecords.ParseIntMinus | frontend/src/features/TaskSchedule/components/TaskSchedulingForm.tsx:117 | a leading minus sign negates the unsigned reading after it |
| JsRecords.ParseIntDigits | frontend/src/features/TaskSchedule/utils/parseTaskFile.ts:28-29 | `ParseInt`, the model of `parseInt`, reads decimal digits as their value |
| JsRecords.UnsignedDigits | frontend/src/features/TaskSchedule/utils/parseTaskFile.ts:28-29 | the unsigned reading of decimal digits is their value |
| JsRecords.AllDigitPrefix | frontend/src/features/TaskSchedule/utils/parseTaskFile.ts:28-29 | a text of digits is its own digit prefix |
| JsRecords.GetSpec | frontend/src/features/TaskSchedule/utils/formatTaskData.ts:52 | a key reads a value iff some entry has it, and the value is such an entry's |
| JsRecords.Replace | frontend/src/features/TaskSchedule/components/TaskSchedulingForm.tsx:73 | every entry of the key takes the new value in place |
| JsRecords.PutGet | frontend/src/features/TaskSchedule/components/TaskSchedulingForm.tsx:73 | writing a key keeps keys distinct and in place, sets the key, and leaves other keys alone |
| JsRecords.PutEntries | frontend/src/features/TaskSchedule/components/TaskSchedulingForm.tsx:73 | writing adds no entry but the written one |
| JsRecords.GetAt | frontend/src/features/TaskSchedule/utils/formatTaskData.ts:52 | with distinct keys, a key reads its entry's value |
| JsRecords.PutNum | frontend/src/features/TaskSchedule/components/TaskSchedulingForm.tsx:98 | an integer key takes its place in ascending order, replacing an equal key |
| JsRecords.PutNumGet | frontend/src/features/TaskSchedule/components/TaskSchedulingForm.tsx:98 | writing an integer key sets it and leaves other keys alone |
| JsRecords.DigitsAt | frontend/src/features/TaskSchedule/utils/parseTaskFile.ts:25 | `\d+` takes every digit there is |
| JsRecords.MatchNumber | frontend/src/features/TaskSchedule/utils/parseTaskFile.ts:25 | `\d+(?:\.\d+)?` gives whole digits, fraction digits and the match end |
| JsRecords.MatchNumberSound | frontend/src/features/TaskSchedule/utils/parseTaskFile.ts:25 | a matched number is the text it was matched in |
| JsRecords.DigitsAtIs | frontend/src/features/TaskSchedule/utils/parseTaskFile.ts:25 | the digit run is `d` when `d` is written there and no digit follows |
| JsRecords.DigitPrefixIs | frontend/src/features/TaskSchedule/utils/parseTaskFile.ts:28 | the digit prefix is `d` when the text starts with `d` and no digit follows |
| JsRecords.MatchNumberComplete | frontend/src/features/TaskSchedule/utils/parseTaskFile.ts:25 | a number written to the end is matched as written |
| TaskForm.SkipSpaces | frontend/src/features/TaskSchedule/components/TaskSchedulingForm.tsx:70 | `\s*` takes all the white space |
| TaskForm.KeyAt | frontend/src/features/TaskSchedule/components/TaskSchedulingForm.tsx:70 | `\((\d+),(\d+)\):` gives two digit runs and the end of the colon |
| TaskForm.CostMatchAt | frontend/src/features/TaskSchedule/components/TaskSchedulingForm.tsx:70 | a match at a position has digit ids and a digit cost |
| TaskForm.First | frontend/src/features/TaskSchedule/components/TaskSchedulingForm.tsx:70-95 | the leftmost position that matches, and none before it |
| TaskForm.MatchCost | frontend/src/features/TaskSchedule/components/TaskSchedulingForm.tsx:70 | `line.match` of the cost pattern has a digit cost |
| TaskForm.ApplyCost | frontend/src/features/TaskSchedule/components/TaskSchedulingForm.tsx:73 | writing a matched entry keeps keys distinct |
| TaskForm.Fill | frontend/src/features/TaskSchedule/components/TaskSchedulingForm.tsx:69-75 | the record lines build has distinct keys |
| TaskForm.ParseSetupMatrix | frontend/src/features/TaskSchedule/components/TaskSchedulingForm.tsx:64-83 | the record the matching lines of the trimmed field write, with distinct keys |
| TaskForm.ReadCostLine | frontend/src/features/TaskSchedule/components/TaskSchedulingForm.tsx:70-74 | a matching line writes its key and cost; others change nothing |
| TaskForm.SetupMatrixPrefix | frontend/src/features/TaskSchedule/components/TaskSchedulingForm.tsx:69-75 | one more line applies its entry |
| TaskForm.SetupMatrixLast | frontend/src/features/TaskSchedule/components/TaskSchedulingForm.tsx:73 | a later line with the same key overwrites; a non-matching line changes nothing |
| TaskForm.KeyAtSound | frontend/src/features/TaskSchedule/components/TaskSchedulingForm.tsx:70 | a matched key is the text `(from,to):` where it matched |
| TaskForm.CostMatchKeySound | frontend/src/features/TaskSchedule/components/TaskSchedulingForm.tsx:70-72 | the match holds `(from,to):` where it starts |
| TaskForm.CostMatchNumberSound | frontend/src/features/TaskSchedule/components/TaskSchedulingForm.tsx:70-72 | after the white space, the cost is as written |
| TaskForm.KeyAtComplete | frontend/src/features/TaskSchedule/components/TaskSchedulingForm.tsx:70 | `(a,b):` followed by anything is a key match |
| TaskForm.KeyAtOf | frontend/src/features/TaskSchedule/components/TaskSchedulingForm.tsx:70 | a text starting with `(a,b):` matches the key at 0 |
| TaskForm.CostMatchAtComplete | frontend/src/features/TaskSchedule/components/TaskSchedulingForm.tsx:70 | a written setup line matches with its ids and cost digits |
| TaskForm.CostMatchAtOf | frontend/src/features/TaskSchedule/components/TaskSchedulingForm.tsx:70 | a key followed by a space and a number to the end matches as written |
| TaskForm.CostAtComplete | frontend/src/features/TaskSchedule/components/TaskSchedulingForm.tsx:70 | a space and a number to the end is matched as written |
| TaskForm.SetupLineEntry | frontend/src/features/TaskSchedule/components/TaskSchedulingForm.tsx:70-73 | a written setup line reads back as its entry |
| TaskForm.SetupLinesRoundTrip | frontend/src/features/TaskSchedule/components/TaskSchedulingForm.tsx:69-75 | the setup lines of a record with task keys read back as the record |
| TaskForm.FillRoundTrip | frontend/src/features/TaskSchedule/components/TaskSchedulingForm.tsx:69-75 | lines each reading as the next entry of a distinct-key record build that record |
| TaskForm.SetupLineBreaks | frontend/src/features/TaskSchedule/utils/formatTaskData.ts:12-14 | no written setup line holds a break or white space at its ends |
| TaskForm.LineShape | frontend/src/features/TaskSchedule/utils/formatTaskData.ts:13 | the same, for one line |
| TaskForm.NumberTextShape | frontend/src/features/TaskSchedule/utils/formatTaskData.ts:13 | number text is non-empty, has no break and ends in a digit |
| TaskForm.DigitNotSpace | frontend/src/features/TaskSchedule/components/TaskSchedulingForm.tsx:66 | a digit is not white space |
| TaskForm.SetupTextLines | frontend/src/features/TaskSchedule/components/TaskSchedulingForm.tsx:66 | the written setup field splits back into its lines |
| TaskForm.SetupMatrixRoundTrip | frontend/src/features/TaskSchedule/components/TaskSchedulingForm.tsx:64-77 | the setup field `FormatTaskData` writes for a record with task keys and exact costs reads back as that record |
| TaskForm.LineEnd | frontend/src/features/TaskSchedule/components/TaskSchedulingForm.tsx:95 | where `.+` must stop: the next line terminator or the end |
| TaskForm.LastNonTerminator | frontend/src/features/TaskSchedule/components/TaskSchedulingForm.tsx:95 | the last position before `hi` that is not a line terminator |
| TaskForm.LabelAt | frontend/src/features/TaskSchedule/components/TaskSchedulingForm.tsx:95 | the label is non-empty and holds no line terminator |
| TaskForm.FamilyMatchAt | frontend/src/features/TaskSchedule/components/TaskSchedulingForm.tsx:95 | the task group is a non-empty digit run |
| TaskForm.FillNum | frontend/src/features/TaskSchedule/components/TaskSchedulingForm.tsx:94-100 | the integer-keyed record lines build is ascending |
| TaskForm.ParseFamilies | frontend/src/features/TaskSchedule/components/TaskSchedulingForm.tsx:85-106 | undefined for blank text; otherwise the record the matching lines write, or undefined when it is empty |
| TaskForm.ReadFamilies | frontend/src/features/TaskSchedule/components/TaskSchedulingForm.tsx:94-100 | the loop builds the record the lines write |
| TaskForm.ReadFamilyLine | frontend/src/features/TaskSchedule/components/TaskSchedulingForm.tsx:95-99 | a matching line maps its task to its label; others change nothing |
| TaskForm.FamiliesPrefix | frontend/src/features/TaskSchedule/components/TaskSchedulingForm.tsx:94-100 | one more line applies its entry |
| TaskForm.FamiliesLast | frontend/src/features/TaskSchedule/components/TaskSchedulingForm.tsx:98 | a later line for the same task overwrites; a non-matching line changes nothing |
| TaskForm.FillNumEmpty | frontend/src/features/TaskSchedule/components/TaskSchedulingForm.tsx:102 | lines build an empty record iff none writes |
| TaskForm.FamiliesOfEmpty | frontend/src/features/TaskSchedule/components/TaskSchedulingForm.tsx:102 | the families record is empty iff no line matches |
| TaskForm.FamiliesNone | frontend/src/features/TaskSchedule/components/TaskSchedulingForm.tsx:88-102 | undefined iff the text is blank or no line matches; a result is ascending in task |
| TaskForm.FamilyMatchAtOf | frontend/src/features/TaskSchedule/components/TaskSchedulingForm.tsx:95 | digits, a colon, a space and a label match at the start |
| TaskForm.FamilyLineEntry | frontend/src/features/TaskSchedule/components/TaskSchedulingForm.tsx:95-98 | a written family line reads back as its task and label |
| TaskForm.PutNumLast | frontend/src/features/TaskSchedule/components/TaskSchedulingForm.tsx:98 | writing a key above every key appends it |
| TaskForm.FillNumRoundTrip | frontend/src/features/TaskSchedule/components/TaskSchedulingForm.tsx:94-100 | lines writing an ascending record's entries in order build that record |
| TaskForm.FamilyLineShape | frontend/src/features/TaskSchedule/utils/formatTaskData.ts:19 | a written family line has no break and no white space at its ends |
| TaskForm.FamilyLinesRoundTrip | frontend/src/features/TaskSchedule/components/TaskSchedulingForm.tsx:94-100 | the family lines of an ascending record read back as the record |
| TaskForm.FamiliesTextLines | frontend/src/features/TaskSchedule/components/TaskSchedulingForm.tsx:91 | the written families field splits back into its lines |
| TaskForm.FamiliesRoundTrip | frontend/src/features/TaskSchedule/components/TaskSchedulingForm.tsx:85-106 | the families field `FormatTaskData` writes for a non-empty ascending record with plain labels reads back as the record |
| TaskForm.Readings | frontend/src/features/TaskSchedule/components/TaskSchedulingForm.tsx:115-118 | the parts that read, in order, at most one value each |
| TaskForm.ReadingsEmpty | frontend/src/features/TaskSchedule/components/TaskSchedulingForm.tsx:118-120 | nothing is read iff no part reads |
| TaskForm.ParseTasksFailure | frontend/src/features/TaskSchedule/components/TaskSchedulingForm.tsx:115-122 | `ParseTasks`, the task-list read of `onSubmit`, fails iff no comma-separated part is a number; otherwise the list is non-empty |
| TaskForm.ReadingsAll | frontend/src/features/TaskSchedule/components/TaskSchedulingForm.tsx:115-118 | parts that each read as the next value give the values |
| TaskForm.IntTextValue | frontend/src/features/TaskSchedule/components/TaskSchedulingForm.tsx:117 | the rendering of an integer has no comma and reads back as the integer |
| TaskForm.NegativeTextValue | frontend/src/features/TaskSchedule/components/TaskSchedulingForm.tsx:117 | a minus sign before digits reads as the negated value |
| TaskForm.TasksRoundTrip | frontend/src/features/TaskSchedule/components/TaskSchedulingForm.tsx:115-118 | the tasks field `FormatTaskData` writes for a non-empty list, read by `ParseTasks`, gives that list back |

## Left out

- Floating point. Costs are whole numbers with an explicit infinity. Fractional and negative setup costs are not modelled. Frontend numbers are decimal digit strings, not IEEE doubles.
- `SchedulingIda.IdaStarScheduling`: the source's `while True` is bounded by a `rounds` argument. Every bound after the first is proved finite, at most `ProbeBounds.FCap` and at least one more than the last, so more than `FCap` rounds always conclude; with fewer rounds the answer `Exhausted` can also mean the rounds ran out.
- `SchedulingIda.IdaStarScheduling`: that `([], inf)` means every order costs infinity is stated only when, for h1 and h2, the table's task list starts with the searched tasks (`Admissibility.TableListsTasks`). Otherwise the estimate reads other tasks than those searched, and an infinite estimate need not mean that no order is finite.
- `GraphInformed.IdaStar`: bounded by `rounds` in the same way; more than `GraphInformed.RoundCap` rounds always conclude.
- `GridSearch.IdaStar`: bounded by `rounds` in the same way; more than `GridSearch.RoundCap` rounds always conclude.
- `GridSearch.UniformCost`, `GridSearch.Greedy`, `GridSearch.AStar`, `GridSearch.IdaStar`: when a cell the search expands has a move that passes its bounds test onto a cell outside Python's index range (`GridSearch.Raises`; possible only with a start off the board, or a grid smaller than `nx` by `ny`), the source stops with IndexError. These searches treat that move as blocked and go on; `GridSearch.GridSuccessors` and `GridSearch.SuccessorsGrid` report the error as None.
- `GridSearch.Greedy`, `GridSearch.AStar`, `GridSearch.IdaStar`: `grid_heuristic` takes a square root. Here it is a parameter `h` giving each cell a whole-number estimate.
- `GraphInformed.GraphHeuristic`: node positions from 20 on make the source's table lookup raise. The model requires positions below 20, so the informed graph searches (`GraphInformed.EstimateReady`) take graphs of at most 20 nodes.
- `Heuristics.H1` requires `Heuristics.Instance`: a complete table over a task list without repeats (task 0 is not excluded). Without a complete table, h1 in the source can compute `inf - inf`, a floating-point NaN. `Heuristics.H2` requires only that the node's bits index the table's task list. The informed scheduling drivers (`SchedulingSearch.HeuristicReady`) ask for `Instance` only when the name is h1, and for h1 and h2 that the searched tasks be no more than the table's task list.
- The heap of `_compute_mst` is modelled as a list with a least-entry pop. The binary-heap layout is not modelled.
- Python's `deque` and `list`, the `visited` dictionaries and the parent-linked `Node`/`NodeP` objects are values here: an arena, an entry list and a map. Node.py and NodeP.py are not part of this model.
- Logging, the Flask app, HTTP gateways, React components and the problem-generator scripts are outside the modelled core.
- `onSubmit` of the task form: only its task-list parse is modelled. The state updates and the request are left out.
- `parseInt` precision: integers are unbounded. The JavaScript loss of precision above 2^53 is not modelled. Record keys are integer-like only below 2^32 - 1.
- The `try`/`catch` blocks of `parseSetupMatrix` and `parseFamilies` are not modelled, since nothing inside them throws.
- `-0` and other special numeric values of JavaScript are not modelled.
- Regular expressions are modelled as the leftmost match their engine finds, written out per pattern. No general regular-expression engine is modelled.
- `TaskForm.FamiliesRoundTrip`: the round trip is stated only for a non-empty ascending record whose labels have no line terminator and no white space at either end. Other records do not survive `trim`, and an empty record is written as `""` and reads back as undefined.
- `TaskForm.SetupMatrixRoundTrip`: the round trip is stated for records whose keys are `(digits,digits)` and whose costs are canonical decimals.
- `GridSearch.UniformCost`, `GridSearch.Greedy`, `GridSearch.AStar`, `GridSearch.IdaStar`: the source stores every state as a tuple (`tuple(start)`, `tuple(new[0])`) but tests the goal with `current.state == end` (backend/service/InformedSearch.py:130, 173, 216, 266). When `end` is a list, no tuple equals it, the goal is never recognised after the start check, and the search answers None. The model's `Cell` compares the end as a pair, which is the evident intent.
- `SetupMatrices.PyInt`: Python's `int()` also accepts underscores between digits and non-ASCII decimal digits. `PyInt` reads only ASCII digits with an optional sign, so `SetupMatrices.ParseEntries` and `SetupMatrices.NewSetupMatrix` reject keys such as `"(1_0,2)"` that the source accepts.
