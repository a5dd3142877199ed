# OS algorithm simulator: Round-Robin scheduling and LRU page replacement

This project models the two simulation algorithms of the OS algorithm simulator, `solveRoundRobin` and `solveLRU` in `src/App.jsx`, and proves what they guarantee. The rest of that file is the React interface and is not modelled.

- `sorting.dfy` (module `Sorting`) models the two calls to `Array.prototype.sort` with a specified stable sort, `SortBy`. It proves that `SortBy` sorts, permutes and is stable, and that it keeps the submitted fields and distinct ids.
- `round_robin.dfy` (module `RoundRobin`) models the Round-Robin CPU scheduler. It keeps the imperative shape of the source:
  - `Prepare` builds the working copies sorted by arrival (lines 8-24).
  - `Schedule` is lines 26-80: `Setup` builds the first queue (lines 26-32) and `RunTurns` holds the `while` loop. One iteration is `Turn`: `Execute` runs the head of the queue (lines 36-54), then `Admit` does the queue bookkeeping (lines 56-79).
  - `NewArrivals` is the arrival scan and `FirstWaiting` the gap scan; both are `for`/`while` loops. Each is proved equal to a recursive definition, `Arrivals` and `Waiting`.
  - `SolveRoundRobin` sorts the result back by pid (line 83).
  - The loop state is the datatype `Loop`. `Initial` is the state before the first turn and `Next` the state after one turn, written as functions. `Execute` and `Admit` state their new values exactly, and `Turn` is proved to compute `Next`.
  - A ghost `trace` records every loop state from `Initial` to the halted one, each produced from the one before by `Next`. `TraceUnique` proves that such a run is unique, so the trace pins the whole schedule.
  - The loop invariant `Running` bundles these facts:
    - the per-process state and the clock bound;
    - the Gantt chart;
    - the ready queue, which holds distinct admitted processes with work left and every such process;
    - the completion count.
  - Termination is on the total work left.
  - The Gantt chart records only end times. A ghost sequence `execs` carries the length of each slice so that service time and slice start times can be stated.
- `lru.dfy` (module `Lru`) models the LRU simulator. The insertion-ordered `Map` becomes a sequence from least to most recently used. `Reference` is one reference (lines 97-111). `SolveLru` is the `forEach` loop.
  - The reference definition `Resident(refs, capacity)` lists, for capacity ≥ 1, the `capacity` most recently used distinct pages, ordered by last use. For capacity 0 or less it lists every page referenced so far, because the `size === capacity` test then never evicts.
  - `AccessIsLru` proves that one simulated reference keeps the resident set equal to that definition.
  - `SolveLru` is proved to produce exactly the history the definition predicts.
- `worked_examples.dfy` (module `WorkedExamples`) works one input of each simulator through to its output, from the simulators' postconditions alone.

Two worked examples of what the code computes. `WorkedExamples.RoundRobinRun` and `WorkedExamples.LruRun` call the two simulators on these inputs and prove these outputs:

- Round-Robin, processes P1 (arrival 0, burst 5) and P2 (arrival 1, burst 3) with quantum 2:
  - The slices are P1 until 2, P2 until 4, P1 until 6, P2 until 7 and P1 until 8. P2 arrives during P1's first slice and is queued ahead of P1's re-queue.
  - So P2 completes at 7, with turnaround 6 and waiting 3; P1 completes at 8, with turnaround 8 and waiting 3.
- LRU with capacity 3 and pages 1 2 3 1 4 5:
  - The hit on page 1 moves it to the most-recently-used end, so 2 and then 3 are evicted.
  - There is one hit and five faults, so the hit ratio is 1/6.
  - The final set is 1 4 5, least recently used first.

## Model

| member | source | states |
|---|---|---|
| Sorting.Map | src/App.jsx:8-14 | the copy has one element per input element, each the image of the input element at the same position |
| Sorting.SortBy | src/App.jsx:24 | the result is sorted by the key and is a permutation of the input |
| Sorting.InsertSorted | src/App.jsx:24 | inserting into a sorted sequence keeps it sorted |
| Sorting.InsertPermutes | src/App.jsx:24 | inserting adds exactly the one element to the multiset |
| Sorting.SortByStable | src/App.jsx:24 | for every key, the elements with that key keep their input order (the sort is stable) |
| Sorting.InsertStable | src/App.jsx:24 | inserting x adds it in front of the elements with its key and changes no other key's elements |
| Sorting.SortByMap | src/App.jsx:83 | sorting does not change the multiset of any projection of the elements |
| Sorting.SortByDistinct | src/App.jsx:83 | keys that are distinct before sorting are distinct after it |
| RoundRobin.Prepare | src/App.jsx:8-24 | the working copies are the submitted processes, unstarted with all of their burst left, stably sorted by arrival, and carrying distinct ids when the submitted ids are distinct |
| RoundRobin.Start | src/App.jsx:8-14 | the working copy carries exactly the submitted fields, has all of its burst left and no metrics |
| RoundRobin.SortedStartsFresh | src/App.jsx:8-14 | every working copy has all of its positive burst left and no metrics |
| RoundRobin.InitialFresh | src/App.jsx:8-24 | the sorted copies satisfy the per-process and clock invariants with nothing completed |
| RoundRobin.InitialJobs | src/App.jsx:8-24 | the sorted copies carry exactly the submitted processes |
| RoundRobin.InitialDistinct | src/App.jsx:8-24 | distinct submitted ids stay distinct among the sorted copies |
| RoundRobin.InitialLoop | src/App.jsx:26-32 | queueing only index 0 and flagging only it satisfies the queue invariant, and an empty chart serves nothing |
| RoundRobin.Initial | src/App.jsx:17-32 | the first loop state has one flag per process, clock 0, an empty chart and nothing completed |
| RoundRobin.StartRunning | src/App.jsx:17-32 | the first loop state meets the whole loop invariant |
| RoundRobin.Setup | src/App.jsx:17-32 | the state the initialisation builds is exactly `Initial`, the one-state trace starts the run, and the loop invariant holds |
| RoundRobin.Schedule | src/App.jsx:26-80 | the run is a trace of turns from `Initial`, each state produced from the one before by `Next`, ending in a halted state that is the returned one; every process is then done; each slice runs between 1 and tq time units and starts after the previous slice ended and after its process arrived; a slice shorter than tq is the one that finished its process; an empty input gives an empty chart; with distinct ids every process was served exactly its burst |
| RoundRobin.RunTurns | src/App.jsx:34-80 | the loop keeps its invariant and the trace, and stops only when every process is done or the queue is empty |
| RoundRobin.LoopDone | src/App.jsx:34-80 | when the loop stops, the trace ends in the halted current state and every process is done |
| RoundRobin.Turn | src/App.jsx:35-79 | the state after one iteration is exactly `Next` of the state before; the trace grows by that state; the loop invariant is kept and the total work left strictly drops |
| RoundRobin.Next | src/App.jsx:35-79 | one iteration changes only the process at the head of the queue and keeps its submitted fields, adds exactly one slice to the chart, for that process, after the old slices, and never clears an admission flag |
| RoundRobin.NextOf | src/App.jsx:35-79 | the exact results of `Execute` followed by `Admit` are the state `Next` gives |
| RoundRobin.StepsExtend | src/App.jsx:34-80 | appending the next state to a trace of turns gives a trace of turns |
| RoundRobin.TraceAgree | src/App.jsx:34-80 | two traces of turns from the same state agree at every position both reach |
| RoundRobin.TraceUnique | src/App.jsx:34-80 | the loop is deterministic: two traces from the same state that both run until the loop stops are equal |
| RoundRobin.Execute | src/App.jsx:36-54 | the clock moves to the arrival if it is behind and then on by min(tq, remaining); process i is replaced by its state after running that long and no other process changes; the chart gains one slice for i ending at the new time; the completion counter goes up by one exactly when i finishes; metrics are set when remaining reaches 0; chart, clock bound, quantum rule and service record are kept |
| RoundRobin.Ran | src/App.jsx:45-52 | a turn keeps the submitted fields and lowers the work left by exactly the time run; at 0 the metrics become completion = end time, turnaround = completion - arrival and waiting = turnaround - burst, otherwise they are unchanged |
| RoundRobin.RunKeepsQuantum | src/App.jsx:43-54 | a slice shorter than tq belongs to a process that finished at that slice's end, and this survives one more turn |
| RoundRobin.RunKeeps | src/App.jsx:38-54 | the same facts for the new state written out as a function of the old one |
| RoundRobin.RunKeepsProcs | src/App.jsx:43-54 | remaining time stays within 0..burst, a process has metrics exactly when it is done, and no process has been served longer than the time since it arrived |
| RoundRobin.RunKeepsChart | src/App.jsx:38-46 | a slice of length between 1 and tq, ending at the new time, starts no earlier than the process's arrival and the end of the previous slice |
| RoundRobin.RunKeepsServed | src/App.jsx:43-52 | with distinct ids, each process's service time equals burst minus remaining, and a finished process completed at the end of its last slice |
| RoundRobin.CountDoneUpdate | src/App.jsx:49-54 | changing one process changes the count of finished processes by whether it was and is finished |
| RoundRobin.CountDoneAll | src/App.jsx:34 | completed equals n exactly when no process has work left |
| RoundRobin.CountDoneNone | src/App.jsx:20 | before anything runs, no process counts as completed |
| RoundRobin.CountDone | src/App.jsx:53 | the completion count never exceeds the number of processes |
| RoundRobin.WorkUpdate | src/App.jsx:45 | the total work left changes by exactly the change in one process's remaining time |
| RoundRobin.WorkNonNegative | src/App.jsx:43-45 | the total work left is never negative, so the loop measure is bounded |
| RoundRobin.ServedAppend | src/App.jsx:46 | a new slice adds its length to its own process's service time and to no other's |
| RoundRobin.LastEndAppend | src/App.jsx:46-50 | a new slice becomes the last slice of its own process and leaves the others' last slices alone |
| RoundRobin.ChartInOrder | src/App.jsx:44-46 | every later slice starts no earlier than an earlier one ended, so chart times strictly increase |
| RoundRobin.ArrivalsFacts | src/App.jsx:57-62 | the arrival scan admits indices in increasing order, and admits an index exactly when it is not flagged, has arrived by the current time and still has work |
| RoundRobin.Mark | src/App.jsx:60 | the new flags are the old ones with exactly the admitted indices set |
| RoundRobin.NewArrivals | src/App.jsx:57-62 | the admitted indices are exactly `Arrivals`, in scan order, and the new flags are `Mark` of them |
| RoundRobin.WaitingFacts | src/App.jsx:71-78 | the gap scan's result is the first unflagged index with work left, and n only when there is none |
| RoundRobin.FirstWaiting | src/App.jsx:71-78 | the loop returns `Waiting` from index 0 |
| RoundRobin.Admit | src/App.jsx:56-79 | the new queue is the rest of the old one, then the arrivals in increasing index order, then i if it has work left; if that is empty while some process is not done, the queue is instead only the first unflagged process with work, which is flagged, and the clock jumps to its arrival; otherwise the clock is unchanged; the queue invariant is kept, the queue is empty only when every process is done, and the clock never moves back |
| RoundRobin.AdmitKeeps | src/App.jsx:57-67 | admitting the arrivals and re-queueing i keeps the queue invariant, and every process left unflagged with work arrives after the current time |
| RoundRobin.AdmitQueued | src/App.jsx:57-67 | every queued index is flagged and has work left after the arrivals and the re-queue |
| RoundRobin.AdmitUnique | src/App.jsx:57-67 | no index is queued twice after the arrivals and the re-queue |
| RoundRobin.AdmitCovered | src/App.jsx:57-67 | every flagged process with work left is queued, and an unflagged one with work left arrives after the current time |
| RoundRobin.AdmitUnadmitted | src/App.jsx:57-62 | a process never flagged has not run |
| RoundRobin.GapKeeps | src/App.jsx:70-78 | when the queue is empty and work remains, the gap scan finds a process, and queueing it keeps the queue invariant |
| RoundRobin.LaterKeeps | src/App.jsx:75 | moving the clock forward keeps the chart and clock bounds |
| RoundRobin.UniqueIsDistinct | src/App.jsx:57-60 | the head-by-head and the pairwise statements of at-most-once queue membership agree |
| RoundRobin.UniqueIds | src/App.jsx:83 | distinct ids stated head by head are distinct ids |
| RoundRobin.SolveRoundRobin | src/App.jsx:6-86 | the run is a trace of turns from `Initial` of the copies sorted by arrival to a halted state; the chart is that state's chart and the result is its processes sorted back by pid; the result has one entry per submitted process and is those processes sorted by pid, all completed with turnaround = completion - arrival, waiting = turnaround - burst and waiting >= 0; each chart slice lasts 1..tq, follows the previous one and names a returned process; an empty input gives an empty chart; with distinct ids each process was served exactly its burst, completed at the end of its last slice, never ran before it arrived, and every slice lasts a full quantum unless it is its process's last |
| RoundRobin.Finish | src/App.jsx:83-85 | the final loop state, sorted back by pid, gives every promise of SolveRoundRobin about the processes and the chart |
| RoundRobin.Outcome | src/App.jsx:83-85 | the final loop state, once sorted back by pid, gives one completed process per submitted one, ordered by pid, and a chart of slices of 1..tq in time order; with distinct ids, full service and no slice before its arrival |
| RoundRobin.OutcomeCompleted | src/App.jsx:83 | every process sorted back by pid is completed with consistent metrics |
| RoundRobin.OutcomeServed | src/App.jsx:83 | with distinct ids, each process sorted back by pid was served its whole burst and completed at the end of its last slice |
| RoundRobin.OutcomeStarts | src/App.jsx:83 | with distinct ids, no slice of a process starts before its arrival |
| RoundRobin.OutcomeChart | src/App.jsx:46 | every pid on the chart is the pid of a returned process |
| RoundRobin.OutcomeQuantum | src/App.jsx:43-54 | with distinct ids, a slice lasts a full quantum unless it is the last slice of its process |
| RoundRobin.SamePid | src/App.jsx:46 | with distinct ids, two working copies with the same pid are the same index, so a pid names at most one process (OutcomeChart gives that it names at least one) |
| Lru.Reference | src/App.jsx:97-111 | one reference gives the pages of Access and is a hit exactly when the page was resident |
| Lru.Access | src/App.jsx:97-111 | after a reference the page is at the most-recently-used end |
| Lru.AccessIsLru | src/App.jsx:97-111 | applying one reference to the pages resident after refs gives the pages resident after refs plus that page, i.e., for capacity ≥ 1, the most recently used `capacity` distinct pages in order of last use, and every page referenced so far otherwise |
| Lru.AccessFacts | src/App.jsx:97-111 | a reference keeps the resident pages distinct and brings in no page other than the one referenced |
| Lru.KeptFacts | src/App.jsx:101-108 | the pages kept before re-appending are distinct, exclude the page and were resident |
| Lru.AccessEvictsOnlyLru | src/App.jsx:105-110 | a page leaves the set exactly when the reference is a fault, the set holds `capacity` pages, and the page is the least recently used one |
| Lru.AccessKeepsOrder | src/App.jsx:97-110 | the pages other than the referenced one keep their relative order |
| Lru.AccessBounded | src/App.jsx:105-110 | with capacity at least 1, a set within capacity stays within capacity |
| Lru.AccessWindow | src/App.jsx:97-110 | a reference applied to the last `capacity` entries of a recency order equals moving the page to the end of the whole order and then keeping the last `capacity` entries |
| Lru.Remove | src/App.jsx:101 | deleting a key leaves no copy of it, keeps only keys that were present and never lengthens the set |
| Lru.Kept | src/App.jsx:97-109 | the pages kept before the referenced page is re-added exclude that page, were all resident, and are no more than before |
| Lru.RemoveFacts | src/App.jsx:101 | deleting a key removes exactly that key and changes nothing when it is absent |
| Lru.RemoveKeepsDistinct | src/App.jsx:101 | deleting a key keeps the set free of duplicates and shortens it by one when the key was present |
| Lru.MoveToEndDistinct | src/App.jsx:101-102 | delete-and-re-add keeps the keys distinct |
| Lru.RecencyFacts | src/App.jsx:114-119 | the recency order lists every referenced page exactly once |
| Lru.RecencyOrdersByLastUse | src/App.jsx:114-119 | the recency order is ordered strictly by the position of each page's last reference |
| Lru.WindowFacts | src/App.jsx:105-110 | keeping the last `capacity` entries keeps them distinct and drawn from the order |
| Lru.ResidentFacts | src/App.jsx:105-110 | the resident pages are distinct, were referenced, and number at most `capacity` when capacity is positive |
| Lru.CountHitsAppend | src/App.jsx:97-99 | a history entry adds one to the hit count exactly when it is a hit |
| Lru.HitRatio | src/App.jsx:123 | the ratio is between 0 and 1, is 0 for no references and 1 when every reference hit |
| Lru.HitRatioIsShare | src/App.jsx:123 | the ratio times the number of references is the number of hits |
| Lru.StepPredicted | src/App.jsx:113-120 | the entry recorded for reference k is the one the reference definition predicts |
| Lru.TraceStep | src/App.jsx:115-120 | the predicted history of k + 1 references extends that of k references by one entry |
| Lru.PredictedPrefix | src/App.jsx:115-120 | the entry predicted for reference m depends only on the references up to m |
| Lru.StepKeepsTrace | src/App.jsx:94-120 | one step of the loop extends the history by the predicted entry and counts its hit |
| Lru.TraceMeaning | src/App.jsx:115-120 | entry k has step k + 1, page k, status Hit exactly when the page was resident before, and the pages resident after it |
| Lru.SolveLru | src/App.jsx:88-124 | one history entry per reference in input order with 1-based steps; a hit exactly when the page was resident under the reference definition; the resident pages after each step, least recent first; hits + faults = number of references; ratio = hits / (hits + faults), or 0 for none |
| WorkedExamples.ArrivalOrder | src/App.jsx:8-24 | the copies of P1 (arrival 0, burst 5) and P2 (arrival 1, burst 3), sorted by arrival, are P1 then P2 with their whole bursts left |
| WorkedExamples.StartOfExample | src/App.jsx:26-32 | the loop starts at time 0 with P1 queued and admitted and P2 not admitted |
| WorkedExamples.Turn1 | src/App.jsx:35-67 | with quantum 2, P1 runs until 2; P2 has arrived by then, so the queue becomes P2 then P1 |
| WorkedExamples.Turn2 | src/App.jsx:35-67 | P2 runs until 4 and is re-queued behind P1 |
| WorkedExamples.Turn3 | src/App.jsx:35-67 | P1 runs until 6 and is re-queued behind P2 |
| WorkedExamples.Turn4 | src/App.jsx:35-67 | P2 runs its last unit until 7 and completes with turnaround 6 and waiting 3 |
| WorkedExamples.Turn5 | src/App.jsx:34-67 | P1 runs its last unit until 8 and completes with turnaround 8 and waiting 3; the loop then stops |
| WorkedExamples.RunOfExample | src/App.jsx:26-80 | the five turns form a run of the loop from its start to a halted state |
| WorkedExamples.FinalOrder | src/App.jsx:83 | the finished copies are already in pid order |
| WorkedExamples.RoundRobinExample | src/App.jsx:6-86 | any result meeting the simulator's postcondition on the example has chart P1@2, P2@4, P1@6, P2@7, P1@8, and P1 finished (8, 8, 3) and P2 finished (7, 6, 3) |
| WorkedExamples.RoundRobinRun | src/App.jsx:6-86 | the simulator, run on the example with quantum 2, returns that chart and those metrics |
| WorkedExamples.RecencyNew | src/App.jsx:103-110 | a page that is not yet known goes to the most-recently-used end of the recency order |
| WorkedExamples.RecencyAgain | src/App.jsx:97-102 | re-referencing the least recently used page moves it from the front to the end |
| WorkedExamples.Recency2 | src/App.jsx:94-111 | after 1 2 the recency order is 1 2 |
| WorkedExamples.Recency3 | src/App.jsx:94-111 | after 1 2 3 it is 1 2 3 |
| WorkedExamples.Recency4 | src/App.jsx:97-102 | after 1 2 3 1 it is 2 3 1 |
| WorkedExamples.Recency5 | src/App.jsx:94-111 | after 1 2 3 1 4 it is 2 3 1 4 |
| WorkedExamples.Recency6 | src/App.jsx:94-111 | after 1 2 3 1 4 5 it is 2 3 1 4 5 |
| WorkedExamples.ResidentEarly | src/App.jsx:103-110 | with capacity 3, the first four references find nothing, 1, 1 2 and 1 2 3 resident |
| WorkedExamples.ResidentLate | src/App.jsx:105-110 | the fifth and sixth references find 2 3 1 and 3 1 4 resident (2 evicted), and 1 4 5 is resident at the end (3 evicted) |
| WorkedExamples.EarlyFaults | src/App.jsx:95-104 | the first three references are faults |
| WorkedExamples.LateStatuses | src/App.jsx:95-104 | the second reference to 1 is a hit, and 4 and 5 are faults |
| WorkedExamples.HitsOfExample | src/App.jsx:97-99 | a six-entry history whose only hit is the fourth counts one hit |
| WorkedExamples.LruExample | src/App.jsx:88-124 | any result meeting the simulator's postcondition on 1 2 3 1 4 5 with capacity 3 has one hit, five faults, the hit at the fourth reference, and 1 4 5 resident at the end |
| WorkedExamples.LruRun | src/App.jsx:88-124 | the simulator, run on that example, returns one hit, five faults, ratio 1/6 and final resident set 1 4 5 |

## Left out

- The React components `App`, `RoundRobin` and `LRUCache` (lines 128-327 of `src/App.jsx`): state hooks, event handlers and rendering.
- The `parseInt` and `isNaN` coercion of the form fields. Every input is modelled as an unbounded integer. The source computes with JavaScript doubles, so `time += exec` (line 44) and the turnaround and waiting subtractions (lines 51-52) are exact only below 2^53.
- RoundRobin.SolveRoundRobin: requires a quantum above 0 and every burst above 0. The interface does not check either: `addProcess` (lines 155-161) rejects only empty fields, and the number inputs (lines 177-178 and 184) set no minimum. The source misbehaves without them:
  - with a quantum of 0 or less, `exec` is never positive, so the loop never finishes;
  - a zero-burst process that is not the first one is never admitted.
- RoundRobin.SolveRoundRobin: states the per-process facts only when the submitted ids are distinct. The chart names processes only by pid, so with repeated ids those facts are not well defined.
- RoundRobin.SolveRoundRobin: the slice lengths `execs` are a ghost output. The source's chart records only end times.
- Arrays and the `Map` are modelled as sequence values that the methods reassign. This concerns the `processes` array, `queue` with `shift`/`push`, the `inQueue` flags and `cacheMap`. All of them are local to one call, so no aliasing is lost.
- The JavaScript sort algorithm is not modelled. Both sorts are the specified stable `SortBy`. The comparators `a.arrivalTime - b.arrivalTime` and `a.pid - b.pid` are integer subtractions, so NaN never arises.
- The completion, turnaround and waiting fields do not exist on a process until it finishes. The model writes this as `Pending` until it is `Finished`.
- Lru.HitRatio: the ratio is exact `real` division, not floating point. The `|| 0` of line 123 is the explicit 0 for no references.
- Lru.AccessBounded: the size bound is claimed only for capacity at least 1. With capacity 0 or less, the `size === capacity` test evicts nothing (or deletes from an empty set once), so the set grows without bound. `Kept` models that literally.
