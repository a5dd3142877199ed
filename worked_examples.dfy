/**
 * Two worked examples, derived from the postconditions of the two
 * simulators: whatever results satisfy those postconditions on these inputs
 * are the ones written out here.
 */
module WorkedExamples {
  import opened RoundRobin
  import opened Sorting
  import Lru

  // ---------------------------------------------------------------------
  // Round-Robin with quantum 2: P1 arrives at 0 with burst 5, P2 at 1 with burst 3
  // ---------------------------------------------------------------------

  const Input: seq<Job> := [Job(1, 0, 5), Job(2, 1, 3)]

  /** The loop states of the run, one per turn: queue, flags, clock, chart and completion count. */
  const State0: Loop := Loop([Process(1, 0, 5, 5, Pending), Process(2, 1, 3, 3, Pending)],
                             [0], [true, false], 0, [], 0)
  const State1: Loop := Loop([Process(1, 0, 5, 3, Pending), Process(2, 1, 3, 3, Pending)],
                             [1, 0], [true, true], 2, [Slice(1, 2)], 0)
  const State2: Loop := Loop([Process(1, 0, 5, 3, Pending), Process(2, 1, 3, 1, Pending)],
                             [0, 1], [true, true], 4, [Slice(1, 2), Slice(2, 4)], 0)
  const State3: Loop := Loop([Process(1, 0, 5, 1, Pending), Process(2, 1, 3, 1, Pending)],
                             [1, 0], [true, true], 6, [Slice(1, 2), Slice(2, 4), Slice(1, 6)], 0)
  const State4: Loop := Loop([Process(1, 0, 5, 1, Pending), Process(2, 1, 3, 0, Finished(7, 6, 3))],
                             [0], [true, true], 7, [Slice(1, 2), Slice(2, 4), Slice(1, 6), Slice(2, 7)], 1)
  const State5: Loop := Loop([Process(1, 0, 5, 0, Finished(8, 8, 3)), Process(2, 1, 3, 0, Finished(7, 6, 3))],
                             [], [true, true], 8, [Slice(1, 2), Slice(2, 4), Slice(1, 6), Slice(2, 7), Slice(1, 8)], 2)

  /** The copies sorted by arrival keep the input order. */
  lemma ArrivalOrder()
    ensures SortBy(Map(Input, Start), ByArrival) == State0.ps
  {
    var m := Map(Input, Start);
    assert m == [Process(1, 0, 5, 5, Pending), Process(2, 1, 3, 3, Pending)];
    assert m[1..] == [Process(2, 1, 3, 3, Pending)];
    assert m[1..][1..] == [];
    assert SortBy(m[1..], ByArrival) == [Process(2, 1, 3, 3, Pending)];
  }

  /** The loop starts from State0: P1 is queued and admitted, at time 0. */
  lemma StartOfExample()
    ensures Initial(SortBy(Map(Input, Start), ByArrival)) == State0
  {
    ArrivalOrder();
    var flags := seq(2, _ => false);
    assert flags[0 := true] == [true, false];
  }

  /** P1 runs until 2; P2 has arrived meanwhile and is queued ahead of P1. */
  lemma Turn1()
    ensures Step(State0, State1, 2)
  {
    var ps := State1.ps;
    assert Arrivals(ps, [true, false], 2, 0) == [];
    assert Arrivals(ps, [true, false], 2, 1) == [];
    assert Arrivals(ps, [true, false], 2, 2) == [1];
    assert Mark([true, false], [1]) == [true, true];
    assert State0.ps[0 := Ran(State0.ps[0], 2, 2)] == ps;
    assert State0.queue[1..] + [1] + [0] == [1, 0];
    assert State0.gantt + [Slice(1, 2)] == State1.gantt;
  }

  /** A turn that admits no one and leaves the flags as they are. */
  lemma NoArrivals(ps: seq<Process>, time: int)
    requires |ps| == 2
    ensures Arrivals(ps, [true, true], time, 2) == []
    ensures Mark([true, true], []) == [true, true]
  {
    assert Arrivals(ps, [true, true], time, 0) == [];
    assert Arrivals(ps, [true, true], time, 1) == [];
  }

  /** P2 runs until 4. */
  lemma Turn2()
    ensures Step(State1, State2, 2)
  {
    NoArrivals(State2.ps, 4);
    assert State1.ps[1 := Ran(State1.ps[1], 2, 4)] == State2.ps;
    assert State1.queue[1..] + [] + [1] == [0, 1];
    assert State1.gantt + [Slice(2, 4)] == State2.gantt;
  }

  /** P1 runs until 6. */
  lemma Turn3()
    ensures Step(State2, State3, 2)
  {
    NoArrivals(State3.ps, 6);
    assert State2.ps[0 := Ran(State2.ps[0], 2, 6)] == State3.ps;
    assert State2.queue[1..] + [] + [0] == [1, 0];
    assert State2.gantt + [Slice(1, 6)] == State3.gantt;
  }

  /** P2 runs its last unit and completes at 7. */
  lemma Turn4()
    ensures Step(State3, State4, 2)
  {
    NoArrivals(State4.ps, 7);
    assert State3.ps[1 := Ran(State3.ps[1], 1, 7)] == State4.ps;
    assert State3.queue[1..] + [] + [] == [0];
    assert State3.gantt + [Slice(2, 7)] == State4.gantt;
  }

  /** P1 runs its last unit and completes at 8; every process is done and the loop stops. */
  lemma Turn5()
    ensures Step(State4, State5, 2)
    ensures Halted(State5)
  {
    NoArrivals(State5.ps, 8);
    assert State4.ps[0 := Ran(State4.ps[0], 1, 8)] == State5.ps;
    assert State4.queue[1..] + [] + [] == [];
    assert State4.gantt + [Slice(1, 8)] == State5.gantt;
  }

  /** The six states above form a run of the loop that starts from the input and halts. */
  lemma RunOfExample()
    ensures Initial(SortBy(Map(Input, Start), ByArrival)) == State0
    ensures Steps([State0, State1, State2, State3, State4, State5], 2)
    ensures Halted(State5)
  {
    StartOfExample();
    Turn1();
    Turn2();
    Turn3();
    Turn4();
    Turn5();
    ChainOfSix(State0, State1, State2, State3, State4, State5, 2);
  }

  /** Five consecutive steps make a run of six states. */
  lemma ChainOfSix(a: Loop, b: Loop, c: Loop, d: Loop, e: Loop, f: Loop, tq: int)
    requires Step(a, b, tq) && Step(b, c, tq) && Step(c, d, tq) && Step(d, e, tq) && Step(e, f, tq)
    ensures Steps([a, b, c, d, e, f], tq)
  {
    var run := [a, b, c, d, e, f];
    assert run[0] == a && run[1] == b && run[2] == c && run[3] == d && run[4] == e && run[5] == f;
    StepsOfSix(run, tq);
  }

  /** A run of six states whose consecutive pairs are steps. */
  lemma StepsOfSix(run: seq<Loop>, tq: int)
    requires |run| == 6
    requires Step(run[0], run[1], tq) && Step(run[1], run[2], tq) && Step(run[2], run[3], tq)
    requires Step(run[3], run[4], tq) && Step(run[4], run[5], tq)
    ensures Steps(run, tq)
  {
    forall k | 0 <= k < |run| - 1 ensures Step(run[k], run[k + 1], tq) {
      assert k == 0 || k == 1 || k == 2 || k == 3 || k == 4;
    }
  }

  /** The final copies are already in pid order. */
  lemma FinalOrder()
    ensures SortBy(State5.ps, ByPid) == State5.ps
  {
    var done := State5.ps;
    assert done[1..] == [done[1]] && done[1..][1..] == [];
    assert SortBy(done[1..], ByPid) == [done[1]];
  }

  /**
   * P1 (arrival 0, burst 5) and P2 (arrival 1, burst 3) with quantum 2: the
   * chart is P1 until 2, P2 until 4, P1 until 6, P2 until 7 and P1 until 8,
   * so P2 completes at 7 (turnaround 6, waiting 3) and P1 at 8 (turnaround 8,
   * waiting 3).
   */
  lemma RoundRobinExample(processes: seq<Process>, gantt: seq<Slice>, trace: seq<Loop>)
    requires |trace| > 0 && trace[0] == Initial(SortBy(Map(Input, Start), ByArrival)) && Steps(trace, 2)
    requires Halted(trace[|trace| - 1])
    requires gantt == trace[|trace| - 1].gantt && processes == SortBy(trace[|trace| - 1].ps, ByPid)
    ensures gantt == [Slice(1, 2), Slice(2, 4), Slice(1, 6), Slice(2, 7), Slice(1, 8)]
    ensures processes == [Process(1, 0, 5, 0, Finished(8, 8, 3)), Process(2, 1, 3, 0, Finished(7, 6, 3))]
  {
    var run := [State0, State1, State2, State3, State4, State5];
    RunOfExample();
    TraceUnique(run, trace, 2);
    FinalOrder();
  }

  /** The Round-Robin simulator run on the example produces the chart and metrics above. */
  method RoundRobinRun() returns (processes: seq<Process>, gantt: seq<Slice>)
    ensures gantt == [Slice(1, 2), Slice(2, 4), Slice(1, 6), Slice(2, 7), Slice(1, 8)]
    ensures processes == [Process(1, 0, 5, 0, Finished(8, 8, 3)), Process(2, 1, 3, 0, Finished(7, 6, 3))]
  {
    ghost var execs, trace;
    assert Input[0].burst > 0 && Input[1].burst > 0;
    processes, gantt, execs, trace := SolveRoundRobin(Input, 2);
    RoundRobinExample(processes, gantt, trace);
  }

  // ---------------------------------------------------------------------
  // LRU with capacity 3 and the references 1 2 3 1 4 5
  // ---------------------------------------------------------------------

  /** The references of the example. */
  const Refs: seq<int> := [1, 2, 3, 1, 4, 5]

  /** A page not yet in the recency order is appended at its end. */
  lemma RecencyNew(refs: seq<int>, x: int, before: seq<int>)
    requires Lru.Recency(refs) == before && x !in before
    ensures Lru.Recency(refs + [x]) == before + [x]
  {
    assert (refs + [x])[..|refs|] == refs;
    Lru.RemoveFacts(before, x);
  }

  /** The least recently used page, referenced again, moves from the front to the end. */
  lemma RecencyAgain(refs: seq<int>, x: int, rest: seq<int>)
    requires Lru.Recency(refs) == [x] + rest && x !in rest
    ensures Lru.Recency(refs + [x]) == rest + [x]
  {
    assert (refs + [x])[..|refs|] == refs;
    assert ([x] + rest)[1..] == rest;
    Lru.RemoveFacts(rest, x);
  }

  lemma Recency2()
    ensures Lru.Recency([1, 2]) == [1, 2]
  {
    RecencyNew([], 1, []);
    assert [] + [1] == [1];
    RecencyNew([1], 2, [1]);
    assert [1] + [2] == [1, 2];
  }

  lemma Recency3()
    ensures Lru.Recency([1, 2, 3]) == [1, 2, 3]
  {
    Recency2();
    RecencyNew([1, 2], 3, [1, 2]);
    assert [1, 2] + [3] == [1, 2, 3];
  }

  /** Referencing 1 again after 1 2 3 makes 2 the least recently used page. */
  lemma Recency4()
    ensures Lru.Recency([1, 2, 3, 1]) == [2, 3, 1]
  {
    Recency3();
    assert [1, 2, 3] == [1] + [2, 3];
    RecencyAgain([1, 2, 3], 1, [2, 3]);
    assert [1, 2, 3] + [1] == [1, 2, 3, 1];
  }

  lemma Recency5()
    ensures Lru.Recency([1, 2, 3, 1, 4]) == [2, 3, 1, 4]
  {
    Recency4();
    RecencyNew([1, 2, 3, 1], 4, [2, 3, 1]);
    assert [1, 2, 3, 1] + [4] == [1, 2, 3, 1, 4];
  }

  lemma Recency6()
    ensures Lru.Recency([1, 2, 3, 1, 4, 5]) == [2, 3, 1, 4, 5]
  {
    Recency5();
    RecencyNew([1, 2, 3, 1, 4], 5, [2, 3, 1, 4]);
    assert [1, 2, 3, 1, 4] + [5] == [1, 2, 3, 1, 4, 5];
  }

  /** What each reference finds resident: nothing, then 1, then 1 2, then 1 2 3. */
  lemma ResidentEarly()
    ensures Lru.Resident(Refs[..0], 3) == [] && Lru.Resident(Refs[..1], 3) == [1]
    ensures Lru.Resident(Refs[..2], 3) == [1, 2] && Lru.Resident(Refs[..3], 3) == [1, 2, 3]
  {
    assert Refs[..0] == [] && Refs[..1] == [1] && Refs[..2] == [1, 2] && Refs[..3] == [1, 2, 3];
    RecencyNew([], 1, []);
    assert [] + [1] == [1];
    Recency2();
    Recency3();
  }

  /** With capacity 3, the fourth reference finds 1 2 3, the fifth 2 3 1 and the sixth 3 1 4. */
  lemma ResidentLate()
    ensures Lru.Resident(Refs[..4], 3) == [2, 3, 1]
    ensures Lru.Resident(Refs[..5], 3) == [3, 1, 4]
    ensures Lru.Resident(Refs, 3) == [1, 4, 5]
  {
    assert Refs[..4] == [1, 2, 3, 1] && Refs[..5] == [1, 2, 3, 1, 4];
    Recency4();
    Recency5();
    assert [2, 3, 1, 4][1..] == [3, 1, 4];
    Recency6();
    assert [2, 3, 1, 4, 5][2..] == [1, 4, 5];
  }

  /** The status half of the simulator's postcondition on the example. */
  ghost predicate StatusesReported(history: seq<Lru.Step>) {
    && |history| == |Refs|
    && forall k :: 0 <= k < |Refs| ==> (history[k].status == Lru.Hit <==> Refs[k] in Lru.Resident(Refs[..k], 3))
  }

  /** The first three references find their page absent. */
  lemma EarlyFaults(history: seq<Lru.Step>)
    requires StatusesReported(history)
    ensures history[0].status == Lru.Fault && history[1].status == Lru.Fault && history[2].status == Lru.Fault
  {
    ResidentEarly();
    assert Refs[0] == 1 && Refs[1] == 2 && Refs[2] == 3;
    assert 1 !in Lru.Resident(Refs[..0], 3);
    assert 2 !in Lru.Resident(Refs[..1], 3);
    assert 3 !in Lru.Resident(Refs[..2], 3);
  }

  /** The second reference to 1 finds it resident; 4 and 5 are new. */
  lemma LateStatuses(history: seq<Lru.Step>)
    requires StatusesReported(history)
    ensures history[3].status == Lru.Hit && history[4].status == Lru.Fault && history[5].status == Lru.Fault
  {
    ResidentEarly();
    ResidentLate();
    assert Refs[3] == 1 && Refs[4] == 4 && Refs[5] == 5;
    assert 1 in Lru.Resident(Refs[..3], 3);
    assert 4 !in Lru.Resident(Refs[..4], 3);
    assert 5 !in Lru.Resident(Refs[..5], 3);
  }

  /**
   * With capacity 3 and references 1 2 3 1 4 5, the only hit is the second
   * reference to 1; pages 2 and then 3 are evicted, and the pages resident
   * at the end are 1 4 5, least recently used first.
   */
  lemma LruExample(hits: nat, faults: nat, history: seq<Lru.Step>)
    requires |history| == |Refs|
    requires hits + faults == |Refs| && hits == Lru.CountHits(history)
    requires forall k :: 0 <= k < |Refs| ==>
               && (history[k].status == Lru.Hit <==> Refs[k] in Lru.Resident(Refs[..k], 3))
               && history[k].cacheState == Lru.Resident(Refs[..k + 1], 3)
    ensures hits == 1 && faults == 5
    ensures history[3].status == Lru.Hit
    ensures history[5].cacheState == [1, 4, 5]
  {
    assert StatusesReported(history);
    EarlyFaults(history);
    LateStatuses(history);
    HitsOfExample(history);
    assert Refs[..6] == Refs;
    ResidentLate();
  }

  /** A history of six entries whose only hit is the fourth counts one hit. */
  lemma HitsOfExample(h: seq<Lru.Step>)
    requires |h| == 6
    requires h[0].status == Lru.Fault && h[1].status == Lru.Fault && h[2].status == Lru.Fault
    requires h[3].status == Lru.Hit && h[4].status == Lru.Fault && h[5].status == Lru.Fault
    ensures Lru.CountHits(h) == 1
  {
    assert h[..1][..0] == h[..0] && h[..2][..1] == h[..1] && h[..3][..2] == h[..2];
    assert h[..4][..3] == h[..3] && h[..5][..4] == h[..4] && h[..6][..5] == h[..5] && h[..6] == h;
    assert Lru.CountHits(h[..0]) == 0;
    assert Lru.CountHits(h[..1]) == 0;
    assert Lru.CountHits(h[..2]) == 0;
    assert Lru.CountHits(h[..3]) == 0;
    assert Lru.CountHits(h[..4]) == 1;
    assert Lru.CountHits(h[..5]) == 1;
  }

  /** The LRU simulator run on the example: one hit, five faults, a hit ratio of 1/6, and 1 4 5 resident at the end. */
  method LruRun() returns (hits: nat, faults: nat, ratio: real, history: seq<Lru.Step>)
    ensures hits == 1 && faults == 5 && ratio == 1.0 / 6.0
    ensures |history| == 6 && history[3].status == Lru.Hit && history[5].cacheState == [1, 4, 5]
  {
    hits, faults, ratio, history := Lru.SolveLru(3, Refs);
    LruExample(hits, faults, history);
  }
}
