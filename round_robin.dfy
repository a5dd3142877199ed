/**
 * The Round-Robin CPU scheduler (solveRoundRobin). Processes are sorted by
 * arrival time; a FIFO queue of indices into that sorted sequence decides who
 * runs next; each turn runs the head of the queue for at most one time
 * quantum, records a Gantt slice, admits the processes that have arrived by
 * then, and re-queues the process behind them if it still has work. When the
 * queue runs dry while work remains, the clock jumps to the next waiting
 * process's arrival. The result is sorted back by process id.
 */
module RoundRobin {
  import opened Sorting

  /** A process as submitted: its id, arrival time and burst time. */
  datatype Job = Job(id: int, arrival: int, burst: int)

  /** The metrics of a process, set once when it completes. */
  datatype Metrics = Pending | Finished(completion: int, turnaround: int, waiting: int)

  /** A process being scheduled: the submitted fields, the work left and its metrics. */
  datatype Process = Process(pid: int, arrival: int, burst: int, remaining: int, metrics: Metrics)

  /** One Gantt chart entry: the process that ran and the time its slice ended. */
  datatype Slice = Slice(pid: int, time: int)

  datatype Option<T> = None | Some(value: T)

  /** The working copy of a submitted process: all of its burst is left. */
  function Start(j: Job): (p: Process)
    ensures JobOf(p) == j && p.remaining == p.burst && p.metrics == Pending
  {
    Process(j.id, j.arrival, j.burst, j.burst, Pending)
  }

  /** The submitted fields of a process. */
  function JobOf(p: Process): Job {
    Job(p.pid, p.arrival, p.burst)
  }

  function JobId(j: Job): int { j.id }
  function ByArrival(p: Process): int { p.arrival }
  function ByPid(p: Process): int { p.pid }

  /** No two submitted processes share an id (the interface numbers them 1, 2, ...). */
  predicate DistinctIds(input: seq<Job>) {
    KeysDistinct(input, JobId)
  }

  /** Every submitted process has work to do. */
  predicate PositiveBursts(input: seq<Job>) {
    forall k :: 0 <= k < |input| ==> input[k].burst > 0
  }

  /**
   * A completed process: no work left, and its turnaround and waiting times
   * derived from its completion time; it cannot have finished before it
   * arrived and ran for its whole burst.
   */
  predicate Completed(p: Process) {
    && p.remaining == 0
    && p.metrics.Finished?
    && p.metrics.turnaround == p.metrics.completion - p.arrival
    && p.metrics.waiting == p.metrics.turnaround - p.burst
    && p.metrics.waiting >= 0
  }

  /** Total time the slices of process `pid` ran; execs[k] is the length of slice k. */
  function Served(gantt: seq<Slice>, execs: seq<int>, pid: int): int
    requires |gantt| == |execs|
  {
    if gantt == [] then 0
    else
      var n := |gantt| - 1;
      Served(gantt[..n], execs[..n], pid) + (if gantt[n].pid == pid then execs[n] else 0)
  }

  /** The end time of the last slice of process `pid`, if it ran at all. */
  function LastEnd(gantt: seq<Slice>, pid: int): Option<int> {
    if gantt == [] then None
    else if gantt[|gantt| - 1].pid == pid then Some(gantt[|gantt| - 1].time)
    else LastEnd(gantt[..|gantt| - 1], pid)
  }

  /** Number of processes with no work left. */
  function CountDone(ps: seq<Process>): (c: nat)
    ensures c <= |ps|
  {
    if ps == [] then 0
    else CountDone(ps[..|ps| - 1]) + (if ps[|ps| - 1].remaining == 0 then 1 else 0)
  }

  /** Total work left. */
  function Work(ps: seq<Process>): int {
    if ps == [] then 0 else Work(ps[..|ps| - 1]) + ps[|ps| - 1].remaining
  }

  function Min(a: int, b: int): int {
    if a < b then a else b
  }

  predicate Increasing(s: seq<nat>) {
    forall a, b :: 0 <= a < b < |s| ==> s[a] < s[b]
  }

  /** No element occurs twice in s, stated head by head. */
  predicate Unique<T(==)>(s: seq<T>) {
    |s| == 0 || (s[0] !in s[1..] && Unique(s[1..]))
  }

  /** The head-by-head and the pairwise statements of "no repeats" agree. */
  lemma {:induction false} UniqueIsDistinct<T>(s: seq<T>)
    ensures Unique(s) <==> Distinct(s)
  {
    if |s| > 0 {
      UniqueIsDistinct(s[1..]);
      if Distinct(s) {
        forall a | 0 <= a < |s[1..]| ensures s[1..][a] != s[0] {
          assert s[1..][a] == s[a + 1];
        }
      }
      if Unique(s) {
        forall a, b | 0 <= a < b < |s| ensures s[a] != s[b] {
          assert s[b] == s[1..][b - 1];
          if a > 0 {
            assert s[a] == s[1..][a - 1];
          }
        }
      }
    }
  }
  /** Distinct ids, stated head by head. */
  lemma UniqueIds(ps: seq<Process>)
    ensures Unique(Map(ps, ByPid)) <==> KeysDistinct(ps, ByPid)
  {
    UniqueIsDistinct(Map(ps, ByPid));
  }


  /** Process j is admitted by the arrival scan at `time`: not admitted yet, arrived, and with work left. */
  predicate Arrives(ps: seq<Process>, inQueue: seq<bool>, time: int, j: nat)
    requires |inQueue| == |ps| && j < |ps|
  {
    !inQueue[j] && ps[j].arrival <= time && ps[j].remaining > 0
  }

  /** The indices among the first n that the arrival scan at `time` admits, in index order. */
  function Arrivals(ps: seq<Process>, inQueue: seq<bool>, time: int, n: nat): seq<nat>
    requires |inQueue| == |ps| && n <= |ps|
  {
    if n == 0 then []
    else Arrivals(ps, inQueue, time, n - 1) + (if Arrives(ps, inQueue, time, n - 1) then [n - 1] else [])
  }

  /** The scan admits, in increasing index order, exactly the processes that arrive. */
  lemma {:induction false} ArrivalsFacts(ps: seq<Process>, inQueue: seq<bool>, time: int, n: nat)
    requires |inQueue| == |ps| && n <= |ps|
    ensures Increasing(Arrivals(ps, inQueue, time, n))
    ensures forall a :: 0 <= a < |Arrivals(ps, inQueue, time, n)| ==> Arrivals(ps, inQueue, time, n)[a] < n
    ensures forall j :: 0 <= j < n ==> (j in Arrivals(ps, inQueue, time, n) <==> Arrives(ps, inQueue, time, j))
  {
    if n > 0 {
      ArrivalsFacts(ps, inQueue, time, n - 1);
    }
  }

  /** The admission flags after the indices in `arrived` have been admitted. */
  function Mark(inQueue: seq<bool>, arrived: seq<nat>): (flags: seq<bool>)
    ensures |flags| == |inQueue|
    ensures forall j :: 0 <= j < |inQueue| ==> flags[j] == (inQueue[j] || j in arrived)
  {
    seq(|inQueue|, j requires 0 <= j < |inQueue| => inQueue[j] || j in arrived)
  }

  /**
   * The arrival scan: in index order, every process not yet admitted that has
   * arrived by `time` and still has work is admitted.
   */
  method NewArrivals(ps: seq<Process>, inQueue: seq<bool>, time: int) returns (arrived: seq<nat>, inQueue': seq<bool>)
    requires |inQueue| == |ps|
    ensures arrived == Arrivals(ps, inQueue, time, |ps|)
    ensures inQueue' == Mark(inQueue, arrived)
  {
    arrived, inQueue' := [], inQueue;
    for j := 0 to |ps|
      invariant |inQueue'| == |ps|
      invariant arrived == Arrivals(ps, inQueue, time, j)
      invariant forall a :: 0 <= a < |arrived| ==> arrived[a] < j
      invariant forall m :: 0 <= m < |ps| ==> inQueue'[m] == (inQueue[m] || m in arrived)
    {
      if !inQueue'[j] && ps[j].arrival <= time && ps[j].remaining > 0 {
        arrived := arrived + [j];
        inQueue' := inQueue'[j := true];
      }
    }
  }

  /** Process k is waiting for the gap scan: never admitted, with work left. */
  predicate Idle(ps: seq<Process>, inQueue: seq<bool>, k: nat)
    requires |inQueue| == |ps| && k < |ps|
  {
    !inQueue[k] && ps[k].remaining > 0
  }

  /** The first index from k on of a process never admitted that still has work, or |ps| when there is none. */
  function Waiting(ps: seq<Process>, inQueue: seq<bool>, k: nat): nat
    requires |inQueue| == |ps| && k <= |ps|
    decreases |ps| - k
  {
    if k == |ps| then k
    else if Idle(ps, inQueue, k) then k
    else Waiting(ps, inQueue, k + 1)
  }

  /** Waiting finds the first idle index from k on, and |ps| only when there is none. */
  lemma {:induction false} WaitingFacts(ps: seq<Process>, inQueue: seq<bool>, k: nat)
    requires |inQueue| == |ps| && k <= |ps|
    ensures k <= Waiting(ps, inQueue, k) <= |ps|
    ensures forall j :: k <= j < Waiting(ps, inQueue, k) ==> !Idle(ps, inQueue, j)
    ensures Waiting(ps, inQueue, k) < |ps| ==> Idle(ps, inQueue, Waiting(ps, inQueue, k))
    decreases |ps| - k
  {
    if k < |ps| && !Idle(ps, inQueue, k) {
      WaitingFacts(ps, inQueue, k + 1);
    }
  }

  /**
   * The gap scan: the first index of a process never admitted that still has
   * work, or |ps| when there is none.
   */
  method FirstWaiting(ps: seq<Process>, inQueue: seq<bool>) returns (k: nat)
    requires |inQueue| == |ps|
    ensures k == Waiting(ps, inQueue, 0)
  {
    k := 0;
    while k < |ps|
      invariant k <= |ps|
      invariant Waiting(ps, inQueue, k) == Waiting(ps, inQueue, 0)
    {
      if !inQueue[k] && ps[k].remaining > 0 {
        return;
      }
      k := k + 1;
    }
  }

  lemma ServedAppend(gantt: seq<Slice>, execs: seq<int>, s: Slice, x: int, pid: int)
    requires |gantt| == |execs|
    ensures Served(gantt + [s], execs + [x], pid) == Served(gantt, execs, pid) + (if s.pid == pid then x else 0)
  {
    assert (gantt + [s])[..|gantt|] == gantt;
    assert (execs + [x])[..|execs|] == execs;
  }

  lemma LastEndAppend(gantt: seq<Slice>, s: Slice, pid: int)
    ensures LastEnd(gantt + [s], pid) == if s.pid == pid then Some(s.time) else LastEnd(gantt, pid)
  {
    assert (gantt + [s])[..|gantt|] == gantt;
  }

  lemma {:induction false} CountDoneUpdate(ps: seq<Process>, i: nat, p: Process)
    requires i < |ps|
    ensures CountDone(ps[i := p]) ==
              CountDone(ps) - (if ps[i].remaining == 0 then 1 else 0) + (if p.remaining == 0 then 1 else 0)
  {
    var n := |ps| - 1;
    if i < n {
      CountDoneUpdate(ps[..n], i, p);
      assert ps[i := p][..n] == ps[..n][i := p];
    } else {
      assert ps[i := p][..n] == ps[..n];
    }
  }

  lemma {:induction false} WorkUpdate(ps: seq<Process>, i: nat, p: Process)
    requires i < |ps|
    ensures Work(ps[i := p]) == Work(ps) - ps[i].remaining + p.remaining
  {
    var n := |ps| - 1;
    if i < n {
      WorkUpdate(ps[..n], i, p);
      assert ps[i := p][..n] == ps[..n][i := p];
    } else {
      assert ps[i := p][..n] == ps[..n];
    }
  }

  lemma {:induction false} WorkNonNegative(ps: seq<Process>)
    requires forall i :: 0 <= i < |ps| ==> ps[i].remaining >= 0
    ensures Work(ps) >= 0
  {
    if ps != [] {
      WorkNonNegative(ps[..|ps| - 1]);
    }
  }

  /** All processes are done exactly when the count of done processes is the number of processes. */
  lemma {:induction false} CountDoneAll(ps: seq<Process>)
    ensures CountDone(ps) == |ps| <==> forall i :: 0 <= i < |ps| ==> ps[i].remaining == 0
  {
    if ps != [] {
      var n := |ps| - 1;
      CountDoneAll(ps[..n]);
      if CountDone(ps) == |ps| {
        assert CountDone(ps[..n]) == n;
        forall i | 0 <= i < |ps| ensures ps[i].remaining == 0 {
          if i < n {
            assert ps[..n][i] == ps[i];
          }
        }
      }
      if forall i :: 0 <= i < |ps| ==> ps[i].remaining == 0 {
        forall i | 0 <= i < n ensures ps[..n][i].remaining == 0 {
          assert ps[..n][i] == ps[i];
        }
      }
    }
  }

  lemma {:induction false} CountDoneNone(ps: seq<Process>)
    requires forall i :: 0 <= i < |ps| ==> ps[i].remaining > 0
    ensures CountDone(ps) == 0
  {
    if ps != [] {
      var n := |ps| - 1;
      assert forall i :: 0 <= i < n ==> ps[..n][i] == ps[i];
      CountDoneNone(ps[..n]);
    }
  }

  /** A process that has not run yet: all of its (positive) burst is left and it has no metrics. */
  predicate Fresh(p: Process) {
    p.remaining == p.burst > 0 && p.metrics == Pending
  }

  /** The working copies sorted by arrival are all fresh. */
  lemma SortedStartsFresh(input: seq<Job>)
    requires PositiveBursts(input)
    ensures forall p :: p in SortBy(Map(input, Start), ByArrival) ==> Fresh(p)
  {
    var starts := Map(input, Start);
    forall p | p in SortBy(Map(input, Start), ByArrival) ensures Fresh(p) {
      assert p in multiset(SortBy(starts, ByArrival));
      assert p in starts;
      var j :| 0 <= j < |starts| && starts[j] == p;
      assert p == Start(input[j]);
    }
  }

  /** The process after one turn of `exec` time units ending at `time`; it gets its metrics when it is done. */
  function Ran(p: Process, exec: int, time: int): (q: Process)
    ensures JobOf(q) == JobOf(p) && q.remaining == p.remaining - exec
    ensures q.remaining == 0 ==> q.metrics == Finished(time, time - p.arrival, time - p.arrival - p.burst)
    ensures q.remaining != 0 ==> q.metrics == p.metrics
  {
    var q := p.(remaining := p.remaining - exec);
    if q.remaining == 0 then q.(metrics := Finished(time, time - q.arrival, time - q.arrival - q.burst)) else q
  }

  /**
   * The per-process state kept by the scheduler: the submitted fields never
   * change, the work left stays within the burst, and a process has metrics
   * exactly when it is done, and then it is completed.
   */
  ghost predicate ProcsOk(ps: seq<Process>, ps0: seq<Process>) {
    && |ps| == |ps0|
    && (forall i :: 0 <= i < |ps| ==> JobOf(ps[i]) == JobOf(ps0[i]))
    && (forall i :: 0 <= i < |ps| ==> 0 <= ps[i].remaining <= ps[i].burst)
    && (forall i :: 0 <= i < |ps| ==> ps[i].remaining > 0 ==> ps[i].metrics == Pending)
    && (forall i :: 0 <= i < |ps| ==> ps[i].remaining == 0 ==> Completed(ps[i]))
  }

  /** Each slice of the chart starts no earlier than the previous one ended; execs[k] is the length of slice k. */
  predicate Sequential(gantt: seq<Slice>, execs: seq<int>)
    requires |gantt| == |execs|
  {
    forall k {:trigger execs[k]} :: 0 < k < |gantt| ==> gantt[k - 1].time <= gantt[k].time - execs[k]
  }

  /**
   * In a sequential chart of non-empty slices, every later slice starts no
   * earlier than an earlier one ended, so the end times strictly increase.
   */
  lemma {:induction false} ChartInOrder(gantt: seq<Slice>, execs: seq<int>, a: nat, b: nat)
    requires |gantt| == |execs| && Sequential(gantt, execs)
    requires forall k :: 0 <= k < |execs| ==> execs[k] > 0
    requires a < b < |gantt|
    ensures gantt[a].time <= gantt[b].time - execs[b]
    ensures gantt[a].time < gantt[b].time
    decreases b - a
  {
    assert gantt[b - 1].time <= gantt[b].time - execs[b];
    if a < b - 1 {
      ChartInOrder(gantt, execs, a, b - 1);
    }
  }

  /**
   * The Gantt chart so far: slice k has length execs[k] within the quantum,
   * was run by process owner[k] no earlier than its arrival, and starts no
   * earlier than slice k - 1 ended; the last slice ends by `time`.
   */
  ghost predicate ChartOk(ps: seq<Process>, gantt: seq<Slice>, execs: seq<int>, owner: seq<nat>, tq: int, time: int) {
    && |gantt| == |execs| == |owner|
    && (forall k :: 0 <= k < |execs| ==> 0 < execs[k] <= tq)
    && Sequential(gantt, execs)
    && (forall k {:trigger owner[k]} :: 0 <= k < |owner| ==>
          owner[k] < |ps| && ps[owner[k]].pid == gantt[k].pid && gantt[k].time - execs[k] >= ps[owner[k]].arrival)
    && (|gantt| > 0 ==> gantt[|gantt| - 1].time <= time)
  }

  /** A process that has run has not been served longer than the time since it arrived. */
  ghost predicate ClockOk(ps: seq<Process>, time: int) {
    forall i :: 0 <= i < |ps| && ps[i].remaining < ps[i].burst ==> ps[i].burst - ps[i].remaining <= time - ps[i].arrival
  }

  /**
   * Each process has been served exactly the work it has done, and a process
   * that is done completed at the end of its last slice.
   */
  ghost predicate ServedOk(ps: seq<Process>, gantt: seq<Slice>, execs: seq<int>)
    requires |gantt| == |execs|
  {
    && (forall i :: 0 <= i < |ps| ==> Served(gantt, execs, ps[i].pid) == ps[i].burst - ps[i].remaining)
    && (forall i :: 0 <= i < |ps| && ps[i].remaining == 0 ==>
          ps[i].metrics.Finished? && LastEnd(gantt, ps[i].pid) == Some(ps[i].metrics.completion))
  }

  /** Every queued index names an admitted process with work left. */
  ghost predicate Queued(ps: seq<Process>, queue: seq<nat>, inQueue: seq<bool>) {
    && |inQueue| == |ps|
    && forall a :: 0 <= a < |queue| ==> queue[a] < |ps| && inQueue[queue[a]] && ps[queue[a]].remaining > 0
  }

  /** Every admitted process with work left is queued. */
  ghost predicate Covered(ps: seq<Process>, queue: seq<nat>, inQueue: seq<bool>) {
    forall k :: 0 <= k < |ps| && k < |inQueue| && inQueue[k] && ps[k].remaining > 0 ==> k in queue
  }

  /** A process never admitted has not run. */
  ghost predicate Unadmitted(ps: seq<Process>, inQueue: seq<bool>) {
    forall k :: 0 <= k < |ps| && k < |inQueue| && !inQueue[k] ==> ps[k].remaining == ps[k].burst
  }

  /**
   * The ready queue holds distinct admitted processes with work left; every
   * admitted process with work left is queued; a process never admitted has
   * not run.
   */
  ghost predicate QueueOk(ps: seq<Process>, queue: seq<nat>, inQueue: seq<bool>) {
    Queued(ps, queue, inQueue) && Unique(queue) && Covered(ps, queue, inQueue) && Unadmitted(ps, inQueue)
  }

  /** A slice shorter than the quantum ended its process: the process completed when that slice ended. */
  ghost predicate QuantumOk(ps: seq<Process>, gantt: seq<Slice>, execs: seq<int>, owner: seq<nat>, tq: int) {
    forall k {:trigger owner[k]} :: 0 <= k < |owner| && k < |execs| && k < |gantt| && execs[k] < tq ==>
      && owner[k] < |ps| && ps[owner[k]].remaining == 0 && ps[owner[k]].metrics.Finished?
      && ps[owner[k]].metrics.completion == gantt[k].time
  }

  /** A turn of min(tq, remaining) units is shorter than the quantum only when it finishes the process. */
  lemma RunKeepsQuantum(ps: seq<Process>, gantt: seq<Slice>, execs: seq<int>, owner: seq<nat>, tq: int, i: nat, t: int,
                        ps': seq<Process>, gantt': seq<Slice>, execs': seq<int>, owner': seq<nat>)
    requires QuantumOk(ps, gantt, execs, owner, tq) && |gantt| == |execs| == |owner|
    requires i < |ps| && ps[i].remaining > 0
    requires ps' == ps[i := Ran(ps[i], Min(tq, ps[i].remaining), t)]
    requires gantt' == gantt + [Slice(ps[i].pid, t)] && execs' == execs + [Min(tq, ps[i].remaining)] && owner' == owner + [i]
    ensures QuantumOk(ps', gantt', execs', owner', tq)
  {
    forall k | 0 <= k < |owner'| && k < |execs'| && k < |gantt'| && execs'[k] < tq
      ensures && owner'[k] < |ps'| && ps'[owner'[k]].remaining == 0 && ps'[owner'[k]].metrics.Finished?
              && ps'[owner'[k]].metrics.completion == gantt'[k].time
    {
      if k < |owner| {
        assert owner'[k] == owner[k] && execs'[k] == execs[k] && gantt'[k] == gantt[k];
        assert owner[k] != i;
      }
    }
  }

  /** One turn of process i keeps the per-process state. */
  lemma RunKeepsProcs(ps0: seq<Process>, ps: seq<Process>, ps': seq<Process>, time: int, i: nat, start: int, exec: int)
    requires ProcsOk(ps, ps0) && ClockOk(ps, time)
    requires i < |ps| && ps[i].remaining > 0
    requires start == (if time < ps[i].arrival then ps[i].arrival else time)
    requires 0 < exec <= ps[i].remaining
    requires ps' == ps[i := Ran(ps[i], exec, start + exec)]
    ensures ProcsOk(ps', ps0) && ClockOk(ps', start + exec)
  {
    var t := start + exec;
    forall j | 0 <= j < |ps'| && ps'[j].remaining < ps'[j].burst
      ensures ps'[j].burst - ps'[j].remaining <= t - ps'[j].arrival
    {
      if j != i {
        assert ps'[j] == ps[j];
      }
    }
  }

  /** One turn of process i appends a slice of length exec that starts after both its arrival and the previous slice. */
  lemma RunKeepsChart(ps0: seq<Process>, ps: seq<Process>, gantt: seq<Slice>, execs: seq<int>, owner: seq<nat>,
                      tq: int, time: int, i: nat, start: int, exec: int,
                      ps': seq<Process>, gantt': seq<Slice>, execs': seq<int>, owner': seq<nat>)
    requires ProcsOk(ps, ps0) && ChartOk(ps, gantt, execs, owner, tq, time)
    requires i < |ps| && start == (if time < ps[i].arrival then ps[i].arrival else time)
    requires 0 < exec <= tq && exec <= ps[i].remaining
    requires ps' == ps[i := Ran(ps[i], exec, start + exec)]
    requires gantt' == gantt + [Slice(ps[i].pid, start + exec)] && execs' == execs + [exec] && owner' == owner + [i]
    ensures ChartOk(ps', gantt', execs', owner', tq, start + exec)
  {
    forall k | 0 <= k < |owner'|
      ensures owner'[k] < |ps'| && ps'[owner'[k]].pid == gantt'[k].pid && gantt'[k].time - execs'[k] >= ps'[owner'[k]].arrival
    {
      if k < |owner| {
        assert owner'[k] == owner[k] && gantt'[k] == gantt[k] && execs'[k] == execs[k];
        assert JobOf(ps'[owner[k]]) == JobOf(ps[owner[k]]);
      }
    }
    forall k | 0 <= k < |execs'| ensures 0 < execs'[k] <= tq {
      if k < |execs| {
        assert execs'[k] == execs[k];
      }
    }
    forall k | 0 < k < |gantt'| ensures gantt'[k - 1].time <= gantt'[k].time - execs'[k] {
      if k < |gantt| {
        assert gantt'[k - 1] == gantt[k - 1] && gantt'[k] == gantt[k] && execs'[k] == execs[k];
      }
    }
  }

  /** One turn of process i adds its slice to its service and, when it finishes, makes that slice its last. */
  lemma RunKeepsServed(ps0: seq<Process>, ps: seq<Process>, gantt: seq<Slice>, execs: seq<int>, i: nat, exec: int, t: int,
                       ps': seq<Process>, gantt': seq<Slice>, execs': seq<int>)
    requires ProcsOk(ps, ps0) && KeysDistinct(ps0, ByPid) && |gantt| == |execs| && ServedOk(ps, gantt, execs)
    requires i < |ps| && 0 < exec <= ps[i].remaining
    requires ps' == ps[i := Ran(ps[i], exec, t)]
    requires gantt' == gantt + [Slice(ps[i].pid, t)] && execs' == execs + [exec]
    ensures ServedOk(ps', gantt', execs')
  {
    var s := Slice(ps[i].pid, t);
    forall j | 0 <= j < |ps'|
      ensures Served(gantt + [s], execs + [exec], ps'[j].pid) == ps'[j].burst - ps'[j].remaining
      ensures ps'[j].remaining == 0 ==>
                ps'[j].metrics.Finished? && LastEnd(gantt + [s], ps'[j].pid) == Some(ps'[j].metrics.completion)
    {
      ServedAppend(gantt, execs, s, exec, ps'[j].pid);
      LastEndAppend(gantt, s, ps'[j].pid);
      if j != i {
        assert ps'[j] == ps[j];
        assert ps[j].pid == ps0[j].pid && ps[i].pid == ps0[i].pid;
        if j < i {
          assert ByPid(ps0[j]) != ByPid(ps0[i]);
        } else {
          assert ByPid(ps0[i]) != ByPid(ps0[j]);
        }
      }
    }
  }

  /** Admitting the arrivals and re-queueing i keeps every queued index admitted with work left. */
  lemma AdmitQueued(before: seq<Process>, ps: seq<Process>, i: nat, queue: seq<nat>, inQueue: seq<bool>,
                    arrived: seq<nat>, inQueue': seq<bool>)
    requires Queued(before, [i] + queue, inQueue) && Unique([i] + queue)
    requires |ps| == |before| && i < |ps| && forall j :: 0 <= j < |ps| && j != i ==> ps[j] == before[j]
    requires |inQueue'| == |ps|
    requires forall a :: 0 <= a < |arrived| ==> arrived[a] < |ps| && ps[arrived[a]].remaining > 0
    requires forall j :: 0 <= j < |ps| ==> inQueue'[j] == (inQueue[j] || j in arrived)
    ensures Queued(ps, queue + arrived + (if ps[i].remaining > 0 then [i] else []), inQueue')
  {
    var whole := [i] + queue;
    var q' := queue + arrived + (if ps[i].remaining > 0 then [i] else []);
    UniqueIsDistinct(whole);
    forall a | 0 <= a < |q'| ensures q'[a] < |ps| && inQueue'[q'[a]] && ps[q'[a]].remaining > 0 {
      if a < |queue| {
        assert q'[a] == whole[a + 1];
        assert whole[0] != whole[a + 1];
      } else if a < |queue| + |arrived| {
        assert q'[a] == arrived[a - |queue|];
        assert q'[a] in arrived;
      } else {
        assert q'[a] == i == whole[0];
      }
    }
  }

  /** Admitting the arrivals (never admitted before) and re-queueing i keeps the queue free of repeats. */
  lemma AdmitUnique(ps: seq<Process>, i: nat, queue: seq<nat>, inQueue: seq<bool>, arrived: seq<nat>, back: seq<nat>)
    requires Queued(ps, [i] + queue, inQueue) && Unique([i] + queue) && Increasing(arrived)
    requires forall a :: 0 <= a < |arrived| ==> arrived[a] < |ps| && !inQueue[arrived[a]]
    requires back == [] || back == [i]
    ensures Unique(queue + arrived + back)
  {
    var whole := [i] + queue;
    var q' := queue + arrived + back;
    UniqueIsDistinct(whole);
    UniqueIsDistinct(q');
    forall a, b | 0 <= a < b < |q'| ensures q'[a] != q'[b] {
      if b < |queue| {
        assert q'[a] == whole[a + 1] && q'[b] == whole[b + 1];
      } else if b < |queue| + |arrived| {
        assert q'[b] == arrived[b - |queue|];
        if a < |queue| {
          assert q'[a] == whole[a + 1];
        } else {
          assert q'[a] == arrived[a - |queue|];
        }
      } else {
        assert q'[b] == i == whole[0];
        if a < |queue| {
          assert q'[a] == whole[a + 1];
        } else {
          assert q'[a] == arrived[a - |queue|];
        }
      }
    }
  }

  /**
   * Admitting the arrivals and re-queueing i keeps every admitted process with
   * work left queued; a process still not admitted that has work left arrives
   * after `time`.
   */
  lemma AdmitCovered(before: seq<Process>, ps: seq<Process>, i: nat, queue: seq<nat>, inQueue: seq<bool>, time: int,
                     arrived: seq<nat>, inQueue': seq<bool>)
    requires Covered(before, [i] + queue, inQueue) && |inQueue| == |ps|
    requires |ps| == |before| && i < |ps| && forall j :: 0 <= j < |ps| && j != i ==> ps[j] == before[j]
    requires |inQueue'| == |ps|
    requires forall j :: 0 <= j < |ps| ==> (j in arrived <==> !inQueue[j] && ps[j].arrival <= time && ps[j].remaining > 0)
    requires forall j :: 0 <= j < |ps| ==> inQueue'[j] == (inQueue[j] || j in arrived)
    ensures Covered(ps, queue + arrived + (if ps[i].remaining > 0 then [i] else []), inQueue')
    ensures forall j :: 0 <= j < |ps| && !inQueue'[j] && ps[j].remaining > 0 ==> ps[j].arrival > time
  {
    var whole := [i] + queue;
    var q' := queue + arrived + (if ps[i].remaining > 0 then [i] else []);
    forall k | 0 <= k < |ps| && k < |inQueue'| && inQueue'[k] && ps[k].remaining > 0 ensures k in q' {
      if k in arrived {
        var a :| 0 <= a < |arrived| && arrived[a] == k;
        assert q'[|queue| + a] == k;
      } else if k == i {
        assert q'[|q'| - 1] == i;
      } else {
        assert before[k] == ps[k];
        assert k in whole;
        var a :| 0 <= a < |whole| && whole[a] == k;
        assert a != 0;
        assert q'[a - 1] == k;
      }
    }
  }

  /** A process not admitted after the arrival scan was not admitted before, so it is not i and has not run. */
  lemma AdmitUnadmitted(before: seq<Process>, ps: seq<Process>, i: nat, inQueue: seq<bool>, inQueue': seq<bool>, arrived: seq<nat>)
    requires Unadmitted(before, inQueue) && |inQueue| == |ps| && i < |ps| && inQueue[i]
    requires |ps| == |before| && forall j :: 0 <= j < |ps| && j != i ==> ps[j] == before[j]
    requires |inQueue'| == |ps| && forall j :: 0 <= j < |ps| ==> inQueue'[j] == (inQueue[j] || j in arrived)
    ensures Unadmitted(ps, inQueue')
  {
    forall k | 0 <= k < |ps| && k < |inQueue'| && !inQueue'[k] ensures ps[k].remaining == ps[k].burst {
      assert k != i && before[k] == ps[k];
    }
  }

  /**
   * The gap scan finds a waiting process whenever the queue is empty and not
   * all processes are done; queueing it keeps the queue state.
   */
  lemma GapKeeps(ps: seq<Process>, inQueue: seq<bool>, time: int, k: nat)
    requires QueueOk(ps, [], inQueue) && CountDone(ps) < |ps|
    requires forall i :: 0 <= i < |ps| ==> ps[i].remaining >= 0
    requires forall j :: 0 <= j < |ps| && !inQueue[j] && ps[j].remaining > 0 ==> ps[j].arrival > time
    requires k == Waiting(ps, inQueue, 0)
    ensures k < |ps| && ps[k].arrival > time
    ensures QueueOk(ps, [k], inQueue[k := true])
  {
    WaitingFacts(ps, inQueue, 0);
    CountDoneAll(ps);
    var j :| 0 <= j < |ps| && ps[j].remaining != 0;
    assert Idle(ps, inQueue, j);
  }

  /** A later clock keeps the chart and clock bounds. */
  lemma LaterKeeps(ps: seq<Process>, gantt: seq<Slice>, execs: seq<int>, owner: seq<nat>, tq: int, time: int, time': int)
    requires ChartOk(ps, gantt, execs, owner, tq, time) && ClockOk(ps, time) && time <= time'
    ensures ChartOk(ps, gantt, execs, owner, tq, time') && ClockOk(ps, time')
  {
  }

  /** The working copies sorted by arrival start fresh. */
  lemma InitialFresh(input: seq<Job>, ps: seq<Process>)
    requires PositiveBursts(input) && ps == SortBy(Map(input, Start), ByArrival)
    ensures ProcsOk(ps, ps) && ClockOk(ps, 0) && CountDone(ps) == 0
    ensures forall i :: 0 <= i < |ps| ==> ps[i].remaining == ps[i].burst > 0
  {
    SortedStartsFresh(input);
    assert forall i :: 0 <= i < |ps| ==> Fresh(ps[i]);
    CountDoneNone(ps);
  }

  /** The working copies sorted by arrival carry exactly the submitted processes. */
  lemma InitialJobs(input: seq<Job>)
    ensures multiset(Map(SortBy(Map(input, Start), ByArrival), JobOf)) == multiset(input)
  {
    var starts := Map(input, Start);
    SortByMap(starts, ByArrival, JobOf);
    assert Map(starts, JobOf) == input;
  }

  /** Distinct submitted ids stay distinct in the working copies sorted by arrival. */
  lemma InitialDistinct(input: seq<Job>)
    requires DistinctIds(input)
    ensures KeysDistinct(SortBy(Map(input, Start), ByArrival), ByPid)
  {
    var starts := Map(input, Start);
    forall a, b | 0 <= a < b < |starts| ensures ByPid(starts[a]) != ByPid(starts[b]) {
      assert ByPid(starts[a]) == JobId(input[a]) && ByPid(starts[b]) == JobId(input[b]);
    }
    SortByDistinct(starts, ByArrival, ByPid);
  }

  /**
   * The working copies of the submitted processes, sorted by arrival time
   * (stably: processes arriving together keep their submitted order).
   */
  method Prepare(input: seq<Job>) returns (ps: seq<Process>)
    requires PositiveBursts(input)
    ensures ProcsOk(ps, ps) && ClockOk(ps, 0) && CountDone(ps) == 0
    ensures forall i :: 0 <= i < |ps| ==> ps[i].remaining == ps[i].burst > 0
    ensures multiset(Map(ps, JobOf)) == multiset(input)
    ensures DistinctIds(input) ==> KeysDistinct(ps, ByPid)
    ensures SortedBy(ps, ByArrival)
    ensures forall t :: WithKey(ps, ByArrival, t) == WithKey(Map(input, Start), ByArrival, t)
    ensures ps == SortBy(Map(input, Start), ByArrival)
  {
    ps := SortBy(Map(input, Start), ByArrival);
    forall t ensures WithKey(ps, ByArrival, t) == WithKey(Map(input, Start), ByArrival, t) {
      SortByStable(Map(input, Start), ByArrival, t);
    }
    InitialFresh(input, ps);
    InitialJobs(input);
    if DistinctIds(input) {
      InitialDistinct(input);
    }
  }

  /** The loop starts with only the earliest process queued, nothing served and nothing done. */
  lemma InitialLoop(ps: seq<Process>, queue: seq<nat>, inQueue: seq<bool>)
    requires forall i :: 0 <= i < |ps| ==> ps[i].remaining == ps[i].burst > 0
    requires queue == (if |ps| > 0 then [0] else [])
    requires |inQueue| == |ps| && forall k :: 0 <= k < |inQueue| ==> inQueue[k] == (k == 0)
    ensures QueueOk(ps, queue, inQueue) && ServedOk(ps, [], [])
  {
  }

  /** One turn of process i keeps everything Execute promises. */
  lemma RunKeeps(ps0: seq<Process>, distinct: bool, ps: seq<Process>, i: nat, time: int, tq: int,
                 gantt: seq<Slice>, execs: seq<int>, owner: seq<nat>, t: int, exec: int,
                 ps': seq<Process>, time': int, gantt': seq<Slice>, execs': seq<int>, owner': seq<nat>)
    requires tq > 0 && i < |ps| && ps[i].remaining > 0
    requires ProcsOk(ps, ps0) && ChartOk(ps, gantt, execs, owner, tq, time) && ClockOk(ps, time)
    requires distinct ==> Unique(Map(ps0, ByPid)) && ServedOk(ps, gantt, execs)
    requires QuantumOk(ps, gantt, execs, owner, tq)
    requires t == (if time < ps[i].arrival then ps[i].arrival else time) && exec == Min(tq, ps[i].remaining)
    requires time' == t + exec && ps' == ps[i := Ran(ps[i], exec, time')]
    requires gantt' == gantt + [Slice(ps[i].pid, time')] && execs' == execs + [exec] && owner' == owner + [i]
    ensures |ps'| == |ps| && forall j :: 0 <= j < |ps| && j != i ==> ps'[j] == ps[j]
    ensures JobOf(ps'[i]) == JobOf(ps[i]) && 0 <= ps'[i].remaining < ps[i].remaining
    ensures ProcsOk(ps', ps0) && ChartOk(ps', gantt', execs', owner', tq, time') && ClockOk(ps', time')
    ensures distinct ==> ServedOk(ps', gantt', execs')
    ensures QuantumOk(ps', gantt', execs', owner', tq)
    ensures CountDone(ps') == CountDone(ps) + (if ps'[i].remaining == 0 then 1 else 0)
    ensures 0 <= Work(ps') < Work(ps)
  {
    RunKeepsProcs(ps0, ps, ps', time, i, t, exec);
    RunKeepsQuantum(ps, gantt, execs, owner, tq, i, time', ps', gantt', execs', owner');
    RunKeepsChart(ps0, ps, gantt, execs, owner, tq, time, i, t, exec, ps', gantt', execs', owner');
    if distinct {
      UniqueIds(ps0);
      RunKeepsServed(ps0, ps, gantt, execs, i, exec, time', ps', gantt', execs');
    }
    CountDoneUpdate(ps, i, ps'[i]);
    WorkUpdate(ps, i, ps'[i]);
    WorkNonNegative(ps');
  }

  /**
   * One turn of process i: the clock catches up with its arrival if it is
   * idle, the process runs for at most one quantum, the slice goes on the
   * Gantt chart, and a process with no work left gets its metrics. The
   * per-process state, the chart, the clock bound, the quantum rule and (with
   * distinct ids) the service record are kept, and the total work left goes down.
   */
  method Execute(ghost ps0: seq<Process>, ghost distinct: bool, ps: seq<Process>, i: nat, time: int, tq: int,
                 gantt: seq<Slice>, ghost execs: seq<int>, ghost owner: seq<nat>, completed: int)
    returns (ps': seq<Process>, time': int, gantt': seq<Slice>, ghost execs': seq<int>, ghost owner': seq<nat>, completed': int)
    requires tq > 0 && i < |ps| && ps[i].remaining > 0
    requires ProcsOk(ps, ps0) && ChartOk(ps, gantt, execs, owner, tq, time) && ClockOk(ps, time)
    requires distinct ==> Unique(Map(ps0, ByPid)) && ServedOk(ps, gantt, execs)
    requires QuantumOk(ps, gantt, execs, owner, tq)
    requires completed == CountDone(ps)
    ensures time' == (if time < ps[i].arrival then ps[i].arrival else time) + Min(tq, ps[i].remaining)
    ensures ps' == ps[i := Ran(ps[i], Min(tq, ps[i].remaining), time')]
    ensures gantt' == gantt + [Slice(ps[i].pid, time')]
    ensures execs' == execs + [Min(tq, ps[i].remaining)] && owner' == owner + [i]
    ensures |ps'| == |ps| && forall j :: 0 <= j < |ps| && j != i ==> ps'[j] == ps[j]
    ensures JobOf(ps'[i]) == JobOf(ps[i]) && 0 <= ps'[i].remaining < ps[i].remaining
    ensures ProcsOk(ps', ps0) && ChartOk(ps', gantt', execs', owner', tq, time') && ClockOk(ps', time')
    ensures distinct ==> ServedOk(ps', gantt', execs')
    ensures QuantumOk(ps', gantt', execs', owner', tq)
    ensures completed' == completed + (if ps'[i].remaining == 0 then 1 else 0)
    ensures completed' == CountDone(ps')
    ensures 0 <= Work(ps') < Work(ps)
  {
    var t := time;
    if t < ps[i].arrival {
      t := ps[i].arrival;
    }
    var exec := Min(tq, ps[i].remaining);
    time' := t + exec;
    var p := ps[i].(remaining := ps[i].remaining - exec);
    gantt' := gantt + [Slice(ps[i].pid, time')];
    execs' := execs + [exec];
    owner' := owner + [i];
    completed' := completed;
    if p.remaining == 0 {
      p := p.(metrics := Finished(time', time' - p.arrival, time' - p.arrival - p.burst));
      completed' := completed + 1;
    }
    assert p == Ran(ps[i], exec, time');
    ps' := ps[i := p];
    RunKeeps(ps0, distinct, ps, i, time, tq, gantt, execs, owner, t, exec, ps', time', gantt', execs', owner');
  }

  /** Admitting the arrivals and re-queueing i keeps the queue state; whoever is left out arrives later. */
  lemma AdmitKeeps(before: seq<Process>, ps: seq<Process>, i: nat, whole: seq<nat>, queue: seq<nat>,
                   inQueue: seq<bool>, time: int, arrived: seq<nat>, inQueue': seq<bool>, queue': seq<nat>)
    requires QueueOk(before, whole, inQueue) && |whole| > 0 && whole[0] == i && queue == whole[1..]
    requires |ps| == |before| && i < |ps| && forall j :: 0 <= j < |ps| && j != i ==> ps[j] == before[j]
    requires arrived == Arrivals(ps, inQueue, time, |ps|) && inQueue' == Mark(inQueue, arrived)
    requires queue' == queue + arrived + (if ps[i].remaining > 0 then [i] else [])
    ensures QueueOk(ps, queue', inQueue')
    ensures forall j :: 0 <= j < |ps| && !inQueue'[j] && ps[j].remaining > 0 ==> ps[j].arrival > time
  {
    ArrivalsFacts(ps, inQueue, time, |ps|);
    forall a | 0 <= a < |arrived| ensures arrived[a] < |ps| && Arrives(ps, inQueue, time, arrived[a]) {
      assert arrived[a] in arrived;
    }
    assert whole == [i] + queue;
    AdmitQueued(before, ps, i, queue, inQueue, arrived, inQueue');
    AdmitUnique(before, i, queue, inQueue, arrived, if ps[i].remaining > 0 then [i] else []);
    AdmitCovered(before, ps, i, queue, inQueue, time, arrived, inQueue');
    AdmitUnadmitted(before, ps, i, inQueue, inQueue', arrived);
  }

  /**
   * The queue bookkeeping after the turn of process i (removed from the head
   * of the queue): newly arrived processes are admitted, i is re-queued behind
   * them if it has work left, and if the queue is then empty while work
   * remains, the clock jumps to the first process not yet admitted. The queue
   * state is kept, and the queue is empty only when every process is done.
   */
  method Admit(ghost before: seq<Process>, ps: seq<Process>, i: nat, ghost whole: seq<nat>, queue: seq<nat>,
               inQueue: seq<bool>, time: int, completed: int)
    returns (queue': seq<nat>, inQueue': seq<bool>, time': int)
    requires QueueOk(before, whole, inQueue) && |whole| > 0 && whole[0] == i && queue == whole[1..]
    requires |ps| == |before| && i < |ps| && forall j :: 0 <= j < |ps| && j != i ==> ps[j] == before[j]
    requires forall j :: 0 <= j < |ps| ==> ps[j].remaining >= 0
    requires completed == CountDone(ps)
    ensures var arrived := Arrivals(ps, inQueue, time, |ps|);
            var q := queue + arrived + (if ps[i].remaining > 0 then [i] else []);
            var flags := Mark(inQueue, arrived);
            var k := Waiting(ps, flags, 0);
            if |q| == 0 && completed < |ps| then
              k < |ps| && queue' == [k] && inQueue' == flags[k := true] && time' == ps[k].arrival
            else
              queue' == q && inQueue' == flags && time' == time
    ensures QueueOk(ps, queue', inQueue')
    ensures |queue'| == 0 ==> completed == |ps|
    ensures time' >= time
  {
    var arrived;
    arrived, inQueue' := NewArrivals(ps, inQueue, time);
    queue' := queue + arrived;
    if ps[i].remaining > 0 {
      queue' := queue' + [i];
    }
    AdmitKeeps(before, ps, i, whole, queue, inQueue, time, arrived, inQueue', queue');
    time' := time;
    if |queue'| == 0 && completed < |ps| {
      var k := FirstWaiting(ps, inQueue');
      GapKeeps(ps, inQueue', time, k);
      if k < |ps| {
        queue' := [k];  // pushed onto the empty queue
        inQueue' := inQueue'[k := true];
        time' := ps[k].arrival;
      }
    }
  }

  /**
   * The variables of the scheduling loop: the working copies, the ready queue
   * of indices, the admission flags, the clock, the Gantt chart and the number
   * of completed processes.
   */
  datatype Loop = Loop(ps: seq<Process>, queue: seq<nat>, inQueue: seq<bool>, time: int, gantt: seq<Slice>, completed: int)

  /** The state before the first turn: only index 0 (the earliest arrival) is queued and admitted. */
  function Initial(ps: seq<Process>): (s: Loop)
    ensures |s.inQueue| == |ps| && s.time == 0 && s.gantt == [] && s.completed == 0
  {
    var flags := seq(|ps|, _ => false);
    if |ps| > 0 then Loop(ps, [0], flags[0 := true], 0, [], 0) else Loop(ps, [], flags, 0, [], 0)
  }

  /** The loop takes another turn: not every process is done and the queue is not empty. */
  predicate Ready(s: Loop) {
    && s.completed < |s.ps| && |s.queue| > 0
    && s.queue[0] < |s.ps| && |s.inQueue| == |s.ps|
  }

  /** The loop has stopped. */
  predicate Halted(s: Loop) {
    !(s.completed < |s.ps| && |s.queue| > 0)
  }

  /**
   * One turn of the loop. The head i of the queue runs for min(tq, work left)
   * units, starting at the clock or at its arrival if that is later; the slice
   * goes on the chart and a process with no work left gets its metrics. Then
   * the processes that have arrived by the end of the slice are queued in
   * index order, followed by i if it still has work. If that leaves the queue
   * empty while some process is not done, the first process never admitted
   * with work left is queued alone and the clock jumps to its arrival.
   */
  function Next(s: Loop, tq: int): (n: Loop)
    requires Ready(s)
    ensures |n.ps| == |s.ps| && |n.inQueue| == |s.inQueue|
    ensures forall j :: 0 <= j < |s.ps| && j != s.queue[0] ==> n.ps[j] == s.ps[j]
    ensures JobOf(n.ps[s.queue[0]]) == JobOf(s.ps[s.queue[0]])
    ensures |n.gantt| == |s.gantt| + 1 && n.gantt[..|s.gantt|] == s.gantt && n.gantt[|s.gantt|].pid == s.ps[s.queue[0]].pid
    ensures forall j :: 0 <= j < |s.inQueue| && s.inQueue[j] ==> n.inQueue[j]
  {
    var i := s.queue[0];
    var exec := Min(tq, s.ps[i].remaining);
    var ended := (if s.time < s.ps[i].arrival then s.ps[i].arrival else s.time) + exec;
    var ps := s.ps[i := Ran(s.ps[i], exec, ended)];
    var gantt := s.gantt + [Slice(s.ps[i].pid, ended)];
    var completed := if ps[i].remaining == 0 then s.completed + 1 else s.completed;
    var arrived := Arrivals(ps, s.inQueue, ended, |ps|);
    var queue := s.queue[1..] + arrived + (if ps[i].remaining > 0 then [i] else []);
    var flags := Mark(s.inQueue, arrived);
    var k := Waiting(ps, flags, 0);
    if |queue| == 0 && completed < |ps| && k < |ps| then
      Loop(ps, [k], flags[k := true], ps[k].arrival, gantt, completed)
    else
      Loop(ps, queue, flags, ended, gantt, completed)
  }

  /** A turn of the head of the queue followed by the queue bookkeeping is one turn of the loop. */
  lemma NextOf(s: Loop, tq: int, ps': seq<Process>, ended: int, gantt': seq<Slice>, completed': int,
               queue': seq<nat>, inQueue': seq<bool>, time': int)
    requires Ready(s)
    requires ended == (if s.time < s.ps[s.queue[0]].arrival then s.ps[s.queue[0]].arrival else s.time) + Min(tq, s.ps[s.queue[0]].remaining)
    requires ps' == s.ps[s.queue[0] := Ran(s.ps[s.queue[0]], Min(tq, s.ps[s.queue[0]].remaining), ended)]
    requires gantt' == s.gantt + [Slice(s.ps[s.queue[0]].pid, ended)]
    requires completed' == s.completed + (if ps'[s.queue[0]].remaining == 0 then 1 else 0)
    requires var i := s.queue[0];
             var arrived := Arrivals(ps', s.inQueue, ended, |ps'|);
             var q := s.queue[1..] + arrived + (if ps'[i].remaining > 0 then [i] else []);
             var flags := Mark(s.inQueue, arrived);
             var k := Waiting(ps', flags, 0);
             if |q| == 0 && completed' < |ps'| then
               k < |ps'| && queue' == [k] && inQueue' == flags[k := true] && time' == ps'[k].arrival
             else
               queue' == q && inQueue' == flags && time' == ended
    ensures Loop(ps', queue', inQueue', time', gantt', completed') == Next(s, tq)
  {
  }

  /** State a takes a turn, and b is the state that turn produces. */
  ghost predicate Step(a: Loop, b: Loop, tq: int) {
    Ready(a) && b == Next(a, tq)
  }

  /** Every state of the trace but the last takes a turn, and the next state is the one that turn produces. */
  ghost predicate Steps(trace: seq<Loop>, tq: int) {
    forall k :: 0 <= k < |trace| - 1 ==> Step(trace[k], trace[k + 1], tq)
  }

  /** A trace extended by the turn of its last state is still a trace. */
  lemma StepsExtend(trace: seq<Loop>, tq: int, s: Loop)
    requires Steps(trace, tq) && |trace| > 0 && Ready(trace[|trace| - 1]) && s == Next(trace[|trace| - 1], tq)
    ensures Steps(trace + [s], tq)
  {
    var t := trace + [s];
    forall k | 0 <= k < |t| - 1 ensures Step(t[k], t[k + 1], tq) {
      if k < |trace| - 1 {
        assert t[k] == trace[k] && t[k + 1] == trace[k + 1];
        assert Step(trace[k], trace[k + 1], tq);
      }
    }
  }

  /** Two traces from the same start agree as far as both go. */
  lemma {:induction false} TraceAgree(t1: seq<Loop>, t2: seq<Loop>, tq: int, k: nat)
    requires Steps(t1, tq) && Steps(t2, tq) && 0 < |t1| && 0 < |t2| && t1[0] == t2[0]
    requires k < |t1| && k < |t2|
    ensures t1[k] == t2[k]
  {
    if k > 0 {
      TraceAgree(t1, t2, tq, k - 1);
      assert Step(t1[k - 1], t1[k], tq) && Step(t2[k - 1], t2[k], tq);
    }
  }

  /** The loop is deterministic: two traces from the same start that both run until the loop stops are equal. */
  lemma TraceUnique(t1: seq<Loop>, t2: seq<Loop>, tq: int)
    requires Steps(t1, tq) && Steps(t2, tq) && 0 < |t1| && 0 < |t2| && t1[0] == t2[0]
    requires Halted(t1[|t1| - 1]) && Halted(t2[|t2| - 1])
    ensures t1 == t2
  {
    var m := Min(|t1|, |t2|) - 1;
    TraceAgree(t1, t2, tq, m);
    assert |t1| < |t2| ==> Step(t2[m], t2[m + 1], tq);
    assert |t2| < |t1| ==> Step(t1[m], t1[m + 1], tq);
    forall k | 0 <= k < |t1| ensures t1[k] == t2[k] {
      TraceAgree(t1, t2, tq, k);
    }
  }

  /**
   * The scheduling loop of solveRoundRobin over the working copies ps (sorted
   * by arrival). Its run is a trace of turns from the initial state until the
   * loop stops, ending in the returned state; every process is then done, the
   * per-process state, the chart and the quantum rule are kept, and (with
   * distinct ids) every burst was served in full.
   */
  method Schedule(ghost distinct: bool, ps: seq<Process>, tq: int)
    returns (done: seq<Process>, gantt: seq<Slice>, ghost execs: seq<int>, ghost owner: seq<nat>, time: int,
             ghost trace: seq<Loop>)
    requires tq > 0 && ProcsOk(ps, ps) && ClockOk(ps, 0) && CountDone(ps) == 0
    requires forall i :: 0 <= i < |ps| ==> ps[i].remaining == ps[i].burst > 0
    requires distinct ==> Unique(Map(ps, ByPid))
    ensures |trace| > 0 && trace[0] == Initial(ps) && Steps(trace, tq)
    ensures Halted(trace[|trace| - 1])
    ensures trace[|trace| - 1].ps == done && trace[|trace| - 1].gantt == gantt && trace[|trace| - 1].time == time
    ensures ProcsOk(done, ps) && ChartOk(done, gantt, execs, owner, tq, time) && CountDone(done) == |done|
    ensures QuantumOk(done, gantt, execs, owner, tq)
    ensures |ps| == 0 ==> gantt == []
    ensures distinct ==> ServedOk(done, gantt, execs)
  {
    var queue, inQueue, completed;
    queue, inQueue, time, gantt, execs, owner, completed, trace := Setup(distinct, ps, tq);
    done, queue, inQueue, time, gantt, execs, owner, completed, trace :=
      RunTurns(ps, distinct, tq, ps, queue, inQueue, time, gantt, execs, owner, completed, trace);
    LoopDone(ps, distinct, tq, trace, done, queue, inQueue, time, gantt, execs, owner, completed);
  }

  /**
   * The `while` loop of the scheduler: turns are taken while some process is
   * not done and the queue is not empty. The loop's invariant and the trace
   * of turns are kept; termination is on the total work left.
   */
  method RunTurns(ghost ps0: seq<Process>, ghost distinct: bool, tq: int, ps: seq<Process>, queue: seq<nat>,
                  inQueue: seq<bool>, time: int, gantt: seq<Slice>, ghost execs: seq<int>, ghost owner: seq<nat>,
                  completed: int, ghost trace: seq<Loop>)
    returns (ps': seq<Process>, queue': seq<nat>, inQueue': seq<bool>, time': int,
             gantt': seq<Slice>, ghost execs': seq<int>, ghost owner': seq<nat>, completed': int, ghost trace': seq<Loop>)
    requires tq > 0
    requires Looping(ps0, distinct, tq, trace, ps, queue, inQueue, time, gantt, execs, owner, completed)
    ensures Looping(ps0, distinct, tq, trace', ps', queue', inQueue', time', gantt', execs', owner', completed')
    ensures !(completed' < |ps'| && |queue'| > 0)
  {
    ps', queue', inQueue', time', gantt', execs', owner', completed', trace' :=
      ps, queue, inQueue, time, gantt, execs, owner, completed, trace;
    var n := |ps'|;
    while completed' < n && |queue'| > 0
      invariant |ps'| == n
      invariant Looping(ps0, distinct, tq, trace', ps', queue', inQueue', time', gantt', execs', owner', completed')
      decreases Work(ps')
    {
      ps', queue', inQueue', time', gantt', execs', owner', completed', trace' :=
        Turn(ps0, distinct, ps', queue', inQueue', time', tq, gantt', execs', owner', completed', trace');
    }
  }

  /**
   * The loop's variables before the first turn: the clock at 0, an empty
   * chart, nothing completed, and only index 0 (the earliest arrival) queued
   * and admitted. The loop's invariant holds.
   */
  method Setup(ghost distinct: bool, ps: seq<Process>, tq: int)
    returns (queue: seq<nat>, inQueue: seq<bool>, time: int, gantt: seq<Slice>, ghost execs: seq<int>, ghost owner: seq<nat>,
             completed: int, ghost trace: seq<Loop>)
    requires tq > 0 && ProcsOk(ps, ps) && ClockOk(ps, 0) && CountDone(ps) == 0
    requires forall i :: 0 <= i < |ps| ==> ps[i].remaining == ps[i].burst > 0
    requires distinct ==> Unique(Map(ps, ByPid))
    ensures Loop(ps, queue, inQueue, time, gantt, completed) == Initial(ps)
    ensures trace == [Initial(ps)]
    ensures Looping(ps, distinct, tq, trace, ps, queue, inQueue, time, gantt, execs, owner, completed)
  {
    var n := |ps|;
    time := 0;
    queue := [];
    gantt := [];
    execs := [];
    owner := [];
    completed := 0;
    inQueue := seq(n, _ => false);
    if n > 0 {
      queue := queue + [0];
      inQueue := inQueue[0 := true];
    }
    StartRunning(ps, distinct, tq, queue, inQueue);
    trace := [Loop(ps, queue, inQueue, time, gantt, completed)];
  }

  /** The loop's first state, with only the earliest process queued, meets what the loop keeps. */
  lemma StartRunning(ps: seq<Process>, distinct: bool, tq: int, queue: seq<nat>, inQueue: seq<bool>)
    requires tq > 0 && ProcsOk(ps, ps) && ClockOk(ps, 0) && CountDone(ps) == 0
    requires forall i :: 0 <= i < |ps| ==> ps[i].remaining == ps[i].burst > 0
    requires distinct ==> Unique(Map(ps, ByPid))
    requires queue == (if |ps| > 0 then [0] else [])
    requires |inQueue| == |ps| && forall k :: 0 <= k < |inQueue| ==> inQueue[k] == (k == 0)
    ensures Running(ps, distinct, ps, queue, inQueue, 0, tq, [], [], [], 0)
  {
    InitialLoop(ps, queue, inQueue);
    assert ChartOk(ps, [], [], [], tq, 0) && QuantumOk(ps, [], [], [], tq);
  }

  /** When the loop stops, every process is done and the loop's invariant gives the chart facts. */
  lemma LoopDone(ps0: seq<Process>, distinct: bool, tq: int, trace: seq<Loop>, ps: seq<Process>, queue: seq<nat>,
                 inQueue: seq<bool>, time: int, gantt: seq<Slice>, execs: seq<int>, owner: seq<nat>, completed: int)
    requires Looping(ps0, distinct, tq, trace, ps, queue, inQueue, time, gantt, execs, owner, completed)
    requires !(completed < |ps| && |queue| > 0)
    ensures |trace| > 0 && trace[0] == Initial(ps0) && Steps(trace, tq)
    ensures Halted(trace[|trace| - 1])
    ensures trace[|trace| - 1].ps == ps && trace[|trace| - 1].gantt == gantt && trace[|trace| - 1].time == time
    ensures ProcsOk(ps, ps0) && ChartOk(ps, gantt, execs, owner, tq, time) && CountDone(ps) == |ps|
    ensures QuantumOk(ps, gantt, execs, owner, tq)
    ensures |ps0| == 0 ==> gantt == []
    ensures distinct ==> ServedOk(ps, gantt, execs)
  {
  }

  /** The loop's invariant together with the trace of the turns taken so far, ending in the current state. */
  ghost predicate Looping(ps0: seq<Process>, distinct: bool, tq: int, trace: seq<Loop>, ps: seq<Process>, queue: seq<nat>,
                          inQueue: seq<bool>, time: int, gantt: seq<Slice>, execs: seq<int>, owner: seq<nat>, completed: int)
  {
    && Running(ps0, distinct, ps, queue, inQueue, time, tq, gantt, execs, owner, completed)
    && |trace| > 0 && trace[0] == Initial(ps0) && Steps(trace, tq)
    && trace[|trace| - 1] == Loop(ps, queue, inQueue, time, gantt, completed)
    && (|ps0| == 0 ==> gantt == [])
  }

  /**
   * What the scheduling loop keeps: the per-process state, the chart, the
   * clock bound, the queue state, the completion count, an empty queue only
   * once every process is done, the quantum rule, and (with distinct ids) the
   * service record.
   */
  ghost predicate Running(ps0: seq<Process>, distinct: bool, ps: seq<Process>, queue: seq<nat>, inQueue: seq<bool>,
                          time: int, tq: int, gantt: seq<Slice>, execs: seq<int>, owner: seq<nat>, completed: int)
  {
    && |gantt| == |execs| == |owner|
    && ProcsOk(ps, ps0) && ChartOk(ps, gantt, execs, owner, tq, time) && ClockOk(ps, time)
    && QueueOk(ps, queue, inQueue)
    && completed == CountDone(ps)
    && (|queue| == 0 ==> completed == |ps|)
    && QuantumOk(ps, gantt, execs, owner, tq)
    && (distinct ==> Unique(Map(ps0, ByPid)) && ServedOk(ps, gantt, execs))
  }

  /**
   * One iteration of the scheduling loop: the process at the head of the
   * queue takes its turn and the queue is brought up to date, as Next says.
   * Everything the loop keeps is kept, and the total work left goes down.
   */
  method Turn(ghost ps0: seq<Process>, ghost distinct: bool, ps: seq<Process>, queue: seq<nat>, inQueue: seq<bool>,
              time: int, tq: int, gantt: seq<Slice>, ghost execs: seq<int>, ghost owner: seq<nat>, completed: int,
              ghost trace: seq<Loop>)
    returns (ps': seq<Process>, queue': seq<nat>, inQueue': seq<bool>, time': int,
             gantt': seq<Slice>, ghost execs': seq<int>, ghost owner': seq<nat>, completed': int, ghost trace': seq<Loop>)
    requires tq > 0 && |queue| > 0 && completed < |ps|
    requires Looping(ps0, distinct, tq, trace, ps, queue, inQueue, time, gantt, execs, owner, completed)
    ensures Ready(Loop(ps, queue, inQueue, time, gantt, completed))
    ensures Loop(ps', queue', inQueue', time', gantt', completed') == Next(Loop(ps, queue, inQueue, time, gantt, completed), tq)
    ensures trace' == trace + [Loop(ps', queue', inQueue', time', gantt', completed')]
    ensures Looping(ps0, distinct, tq, trace', ps', queue', inQueue', time', gantt', execs', owner', completed')
    ensures |ps'| == |ps| && 0 <= Work(ps') < Work(ps)
  {
    var i := queue[0];
    var rest := queue[1..];
    ps', time', gantt', execs', owner', completed' := Execute(ps0, distinct, ps, i, time, tq, gantt, execs, owner, completed);
    ghost var ended := time';
    queue', inQueue', time' := Admit(ps, ps', i, queue, rest, inQueue, time', completed');
    LaterKeeps(ps', gantt', execs', owner', tq, ended, time');
    NextOf(Loop(ps, queue, inQueue, time, gantt, completed), tq, ps', ended, gantt', completed', queue', inQueue', time');
    StepsExtend(trace, tq, Loop(ps', queue', inQueue', time', gantt', completed'));
    trace' := trace + [Loop(ps', queue', inQueue', time', gantt', completed')];
  }

  /**
   * Runs the scheduler on the submitted processes with time quantum tq. The
   * returned processes are those submitted, ordered by id, all completed; the
   * Gantt chart lists the slices in execution order, where `execs` gives the
   * length of each slice (the chart itself records only end times).
   */
  method SolveRoundRobin(input: seq<Job>, tq: int)
    returns (processes: seq<Process>, gantt: seq<Slice>, ghost execs: seq<int>, ghost trace: seq<Loop>)
    requires tq > 0 && PositiveBursts(input)
    ensures |trace| > 0 && trace[0] == Initial(SortBy(Map(input, Start), ByArrival)) && Steps(trace, tq)
    ensures Halted(trace[|trace| - 1])
    ensures gantt == trace[|trace| - 1].gantt && processes == SortBy(trace[|trace| - 1].ps, ByPid)
    ensures |processes| == |input| && multiset(Map(processes, JobOf)) == multiset(input)
    ensures SortedBy(processes, ByPid)
    ensures forall i :: 0 <= i < |processes| ==> Completed(processes[i])
    ensures |execs| == |gantt|
    ensures forall k :: 0 <= k < |execs| ==> 0 < execs[k] <= tq
    ensures Sequential(gantt, execs)
    ensures DistinctIds(input) ==> forall i :: 0 <= i < |processes| ==>
              && Served(gantt, execs, processes[i].pid) == processes[i].burst
              && processes[i].metrics.Finished?
              && LastEnd(gantt, processes[i].pid) == Some(processes[i].metrics.completion)
    ensures DistinctIds(input) ==> forall i, k :: 0 <= i < |processes| && 0 <= k < |gantt| && gantt[k].pid == processes[i].pid ==>
              gantt[k].time - execs[k] >= processes[i].arrival
    ensures DistinctIds(input) ==> forall k :: 0 <= k < |gantt| ==>
              execs[k] == tq || LastEnd(gantt, gantt[k].pid) == Some(gantt[k].time)
    ensures forall k :: 0 <= k < |gantt| ==> exists i :: 0 <= i < |processes| && processes[i].pid == gantt[k].pid
    ensures |input| == 0 ==> gantt == []
  {
    var ps := Prepare(input);
    var done, time;
    ghost var owner;
    if DistinctIds(input) {
      UniqueIds(ps);
    }
    done, gantt, execs, owner, time, trace := Schedule(DistinctIds(input), ps, tq);
    processes := SortBy(done, ByPid);
    Finish(input, ps, done, gantt, execs, owner, tq, time, processes);
  }

  /** What the loop's final state says about the processes sorted back by id and about the chart. */
  lemma Finish(input: seq<Job>, ps0: seq<Process>, ps: seq<Process>, gantt: seq<Slice>, execs: seq<int>, owner: seq<nat>,
               tq: int, time: int, processes: seq<Process>)
    requires ProcsOk(ps, ps0) && ChartOk(ps, gantt, execs, owner, tq, time) && CountDone(ps) == |ps|
    requires QuantumOk(ps, gantt, execs, owner, tq) && (|ps0| == 0 ==> gantt == [])
    requires multiset(Map(ps0, JobOf)) == multiset(input)
    requires DistinctIds(input) ==> KeysDistinct(ps0, ByPid) && ServedOk(ps, gantt, execs)
    requires processes == SortBy(ps, ByPid)
    ensures |processes| == |input| && multiset(Map(processes, JobOf)) == multiset(input)
    ensures SortedBy(processes, ByPid)
    ensures forall i :: 0 <= i < |processes| ==> Completed(processes[i])
    ensures |execs| == |gantt|
    ensures forall k :: 0 <= k < |execs| ==> 0 < execs[k] <= tq
    ensures Sequential(gantt, execs)
    ensures DistinctIds(input) ==> forall i :: 0 <= i < |processes| ==>
              && Served(gantt, execs, processes[i].pid) == processes[i].burst
              && processes[i].metrics.Finished?
              && LastEnd(gantt, processes[i].pid) == Some(processes[i].metrics.completion)
    ensures DistinctIds(input) ==> forall i, k :: 0 <= i < |processes| && 0 <= k < |gantt| && gantt[k].pid == processes[i].pid ==>
              gantt[k].time - execs[k] >= processes[i].arrival
    ensures DistinctIds(input) ==> forall k :: 0 <= k < |gantt| ==>
              execs[k] == tq || LastEnd(gantt, gantt[k].pid) == Some(gantt[k].time)
    ensures forall k :: 0 <= k < |gantt| ==> exists i :: 0 <= i < |processes| && processes[i].pid == gantt[k].pid
    ensures |input| == 0 ==> gantt == []
  {
    Outcome(input, ps0, ps, gantt, execs, owner, tq, time, processes);
    OutcomeChart(ps, gantt, execs, owner, tq, time, processes);
    if DistinctIds(input) {
      OutcomeQuantum(ps, gantt, execs, owner, tq, time);
    }
  }

  /** What the final loop state says about the processes sorted back by id and about the chart. */
  lemma Outcome(input: seq<Job>, ps0: seq<Process>, ps: seq<Process>, gantt: seq<Slice>, execs: seq<int>, owner: seq<nat>,
                tq: int, time: int, processes: seq<Process>)
    requires ProcsOk(ps, ps0) && ChartOk(ps, gantt, execs, owner, tq, time) && CountDone(ps) == |ps|
    requires multiset(Map(ps0, JobOf)) == multiset(input)
    requires DistinctIds(input) ==> KeysDistinct(ps0, ByPid) && ServedOk(ps, gantt, execs)
    requires processes == SortBy(ps, ByPid)
    ensures |processes| == |input| && multiset(Map(processes, JobOf)) == multiset(input)
    ensures SortedBy(processes, ByPid)
    ensures forall i :: 0 <= i < |processes| ==> Completed(processes[i])
    ensures |execs| == |gantt|
    ensures forall k :: 0 <= k < |execs| ==> 0 < execs[k] <= tq
    ensures Sequential(gantt, execs)
    ensures DistinctIds(input) ==> forall i :: 0 <= i < |processes| ==>
              && Served(gantt, execs, processes[i].pid) == processes[i].burst
              && processes[i].metrics.Finished?
              && LastEnd(gantt, processes[i].pid) == Some(processes[i].metrics.completion)
    ensures DistinctIds(input) ==> forall i, k :: 0 <= i < |processes| && 0 <= k < |gantt| && gantt[k].pid == processes[i].pid ==>
              gantt[k].time - execs[k] >= processes[i].arrival
  {
    CountDoneAll(ps);
    SortByMap(ps, ByPid, JobOf);
    assert Map(ps, JobOf) == Map(ps0, JobOf);
    assert |processes| == |input| by {
      assert |multiset(Map(processes, JobOf))| == |multiset(input)|;
    }
    OutcomeCompleted(ps0, ps, processes);
    if DistinctIds(input) {
      OutcomeServed(ps, gantt, execs, processes);
      OutcomeStarts(ps0, ps, gantt, execs, owner, tq, time, processes);
    }
  }

  /** Every slice of the chart belongs to one of the processes sorted back by id. */
  lemma OutcomeChart(ps: seq<Process>, gantt: seq<Slice>, execs: seq<int>, owner: seq<nat>, tq: int, time: int,
                     processes: seq<Process>)
    requires ChartOk(ps, gantt, execs, owner, tq, time) && processes == SortBy(ps, ByPid)
    ensures forall k :: 0 <= k < |gantt| ==> exists i :: 0 <= i < |processes| && processes[i].pid == gantt[k].pid
  {
    forall k | 0 <= k < |gantt| ensures exists i :: 0 <= i < |processes| && processes[i].pid == gantt[k].pid {
      var j := SourceIndex(processes, ps, owner[k]);
      assert processes[j].pid == gantt[k].pid;
    }
  }

  /**
   * The quantum rule: with distinct ids, every slice lasts a whole quantum
   * unless it is the last slice of its process.
   */
  lemma OutcomeQuantum(ps: seq<Process>, gantt: seq<Slice>, execs: seq<int>, owner: seq<nat>, tq: int, time: int)
    requires ChartOk(ps, gantt, execs, owner, tq, time) && QuantumOk(ps, gantt, execs, owner, tq)
    requires ServedOk(ps, gantt, execs)
    ensures forall k :: 0 <= k < |gantt| ==> execs[k] == tq || LastEnd(gantt, gantt[k].pid) == Some(gantt[k].time)
  {
    forall k | 0 <= k < |gantt| && execs[k] != tq ensures LastEnd(gantt, gantt[k].pid) == Some(gantt[k].time) {
      var j := owner[k];
      assert ps[j].pid == gantt[k].pid && ps[j].metrics.completion == gantt[k].time;
    }
  }

  /** An element of a permutation of s is an element of s. */
  lemma SourceIndex<T>(s: seq<T>, r: seq<T>, i: nat) returns (j: nat)
    requires multiset(r) == multiset(s) && i < |r|
    ensures j < |s| && s[j] == r[i]
  {
    assert r[i] in multiset(s);
    j :| 0 <= j < |s| && s[j] == r[i];
  }

  /** With distinct ids, two working copies with the same id are the same process. */
  lemma SamePid(ps0: seq<Process>, ps: seq<Process>, a: nat, b: nat)
    requires ProcsOk(ps, ps0) && KeysDistinct(ps0, ByPid)
    requires a < |ps| && b < |ps| && ps[a].pid == ps[b].pid
    ensures a == b
  {
    assert ByPid(ps0[a]) == ByPid(ps0[b]) by {
      assert JobOf(ps[a]) == JobOf(ps0[a]) && JobOf(ps[b]) == JobOf(ps0[b]);
    }
  }

  /** When every process is done, the processes sorted back by id are all completed. */
  lemma OutcomeCompleted(ps0: seq<Process>, ps: seq<Process>, processes: seq<Process>)
    requires ProcsOk(ps, ps0) && forall i :: 0 <= i < |ps| ==> ps[i].remaining == 0
    requires processes == SortBy(ps, ByPid)
    ensures forall i :: 0 <= i < |processes| ==> Completed(processes[i])
  {
    forall i | 0 <= i < |processes| ensures Completed(processes[i]) {
      var j := SourceIndex(ps, processes, i);
    }
  }

  /** When every process is done, each was served its whole burst and completed at the end of its last slice. */
  lemma OutcomeServed(ps: seq<Process>, gantt: seq<Slice>, execs: seq<int>, processes: seq<Process>)
    requires |gantt| == |execs| && ServedOk(ps, gantt, execs)
    requires forall i :: 0 <= i < |ps| ==> ps[i].remaining == 0
    requires processes == SortBy(ps, ByPid)
    ensures forall i :: 0 <= i < |processes| ==>
              && Served(gantt, execs, processes[i].pid) == processes[i].burst
              && processes[i].metrics.Finished?
              && LastEnd(gantt, processes[i].pid) == Some(processes[i].metrics.completion)
  {
    forall i | 0 <= i < |processes|
      ensures && Served(gantt, execs, processes[i].pid) == processes[i].burst
              && processes[i].metrics.Finished?
              && LastEnd(gantt, processes[i].pid) == Some(processes[i].metrics.completion)
    {
      var j := SourceIndex(ps, processes, i);
    }
  }

  /** With distinct ids, every slice of a process starts no earlier than the process arrived. */
  lemma OutcomeStarts(ps0: seq<Process>, ps: seq<Process>, gantt: seq<Slice>, execs: seq<int>, owner: seq<nat>,
                      tq: int, time: int, processes: seq<Process>)
    requires ProcsOk(ps, ps0) && ChartOk(ps, gantt, execs, owner, tq, time) && KeysDistinct(ps0, ByPid)
    requires processes == SortBy(ps, ByPid)
    ensures forall i, k :: 0 <= i < |processes| && 0 <= k < |gantt| && gantt[k].pid == processes[i].pid ==>
              gantt[k].time - execs[k] >= processes[i].arrival
  {
    forall i, k | 0 <= i < |processes| && 0 <= k < |gantt| && gantt[k].pid == processes[i].pid
      ensures gantt[k].time - execs[k] >= processes[i].arrival
    {
      var j := SourceIndex(ps, processes, i);
      SamePid(ps0, ps, owner[k], j);
    }
  }
}
