/** os::Scheduler: a thread that serves schedule and cancel requests and runs each runnable when
    its deadline has come.  One iteration of its loop is a function of the state and of what the
    environment did meanwhile: calls by other threads, the clock, a timed wait that ran out. */
module Scheduler {
  import opened BinaryHeap
  import Queue = BlockingQueue

  /** Runnables are told apart by their address. */
  type Runnable = nat

  datatype Schedule = Schedule(toRun: Runnable, when: int)

  /** ScheduleComp */
  predicate ByDeadline(a: Schedule, b: Schedule) {
    a.when < b.when
  }

  /** operator== of Schedule compares the runnables only. */
  function SameRunner(r: Runnable): Schedule -> bool {
    (s: Schedule) => s.toRun == r
  }

  lemma ByDeadlineIsStrictWeak()
    ensures StrictWeak(ByDeadline)
  {
  }

  datatype Request =
    | ExitRequest
    | ScheduleRequest(toRun: Runnable, delay: int)
    | CancelRequest(runner: Runnable)
    | ContinueRequest

  /** The calls of the public interface; each pushes one request. */
  datatype Call =
    | CallSchedule(toRun: Runnable, delay: int)
    | CallCancel(runner: Runnable)
    | CallStop
    | CallStopOnEmpty(stop: bool)

  function RequestOf(c: Call): Request {
    match c
    case CallSchedule(r, delay) => ScheduleRequest(r, delay)
    case CallCancel(r) => CancelRequest(r)
    case CallStop => ExitRequest
    case CallStopOnEmpty(_) => ContinueRequest
  }

  /** A runnable that was run, when, and all that was pending at that moment. */
  datatype Execution = Execution(entry: Schedule, at: int, pending: seq<Schedule>)

  datatype State = State(
    heap: seq<Schedule>,
    requests: seq<Request>,
    emptyStop: bool,
    exited: bool,
    accepted: multiset<Schedule>,
    executed: seq<Execution>,
    cancelled: multiset<Schedule>
  )

  const INITIAL := State([], [], false, false, multiset{}, [], multiset{})

  /** One iteration: other threads make calls; then either a request is read at time now, with below
      the word in front of the heap's array at that moment, or the timed wait for the first deadline
      began at one time and ran out at a later one. */
  datatype Event =
    | Read(calls: seq<Call>, now: int, below: Schedule)
    | WaitedInVain(calls: seq<Call>, began: int, ended: int)

  function RequestsOf(calls: seq<Call>): seq<Request>
    decreases |calls|
  {
    if calls == [] then [] else RequestsOf(calls[..|calls| - 1]) + [RequestOf(calls[|calls| - 1])]
  }

  lemma {:induction false} RequestsInOrder(calls: seq<Call>, i: nat)
    requires i < |calls|
    ensures |RequestsOf(calls)| == |calls| && RequestsOf(calls)[i] == RequestOf(calls[i])
    decreases |calls|
  {
    if |calls| > 1 {
      RequestsInOrder(calls[..|calls| - 1], if i < |calls| - 1 then i else 0);
    }
  }

  function AfterCalls(s: State, calls: seq<Call>): State
    decreases |calls|
  {
    if calls == [] then s
    else
      var before := AfterCalls(s, calls[..|calls| - 1]);
      var c := calls[|calls| - 1];
      before.(requests := before.requests + [RequestOf(c)],
              emptyStop := if c.CallStopOnEmpty? then c.stop else before.emptyStop)
  }

  predicate Done(s: State) {
    s.exited || (s.emptyStop && s.heap == [] && s.requests == [])
  }

  /** A wait for this deadline is over: false from front_timed means that the time has passed. */
  predicate IsOver(deadline: int, began: int, ended: int) {
    var wait := deadline - began;
    ended >= began + if wait < 0 then 0 else wait
  }

  /** It lasts to the deadline, and a deadline that has passed is not waited for. */
  lemma IsOverMeans(deadline: int, began: int, ended: int)
    ensures IsOver(deadline, began, ended) <==> ended >= began && ended >= deadline
  {
  }

  /** What the environment can do: a request is read if there is one, and a wait for the first
      deadline is in vain only if there was none (see PossibleIffTurn). */
  predicate Possible(s: State, e: Event) {
    match e
    case Read(calls, _, _) => AfterCalls(s, calls).requests != []
    case WaitedInVain(_, began, ended) => s.heap != [] && s.requests == [] && IsOver(s.heap[0].when, began, ended)
  }

  /** The heap after a request. */
  function ServeHeap(heap: seq<Schedule>, r: Request, now: int, below: Schedule): seq<Schedule> {
    match r
    case ScheduleRequest(toRun, delay) => Push(ByDeadline, heap, Schedule(toRun, delay + now))
    case CancelRequest(runner) => RemoveFirst(ByDeadline, heap, SameRunner(runner), below)
    case _ => heap
  }

  function Serve(s: State, r: Request, now: int, below: Schedule): State {
    var t := s.(heap := ServeHeap(s.heap, r, now, below));
    match r
    case ContinueRequest => t
    case ExitRequest => t.(exited := true)
    case CancelRequest(runner) =>
      var k := Find(s.heap, SameRunner(runner));
      t.(cancelled := if k < |s.heap| then s.cancelled + multiset{s.heap[k]} else s.cancelled)
    case ScheduleRequest(toRun, delay) => t.(accepted := s.accepted + multiset{Schedule(toRun, delay + now)})
  }

  function Iterate(s: State, e: Event): State
    requires Possible(s, e)
  {
    var t := AfterCalls(s, e.calls);
    match e
    case Read(_, now, below) => Serve(t.(requests := t.requests[1..]), t.requests[0], now, below)
    case WaitedInVain(calls, _, ended) =>
      AfterCallsKeeps(s, calls);
      t.(heap := Pop(ByDeadline, t.heap), executed := t.executed + [Execution(t.heap[0], ended, t.heap)])
  }

  lemma {:induction false} AfterCallsKeeps(s: State, calls: seq<Call>)
    ensures var t := AfterCalls(s, calls);
            && t.heap == s.heap && t.exited == s.exited && t.accepted == s.accepted
            && t.executed == s.executed && t.cancelled == s.cancelled
            && t.requests == s.requests + RequestsOf(calls)
    decreases |calls|
  {
    if calls != [] {
      AfterCallsKeeps(s, calls[..|calls| - 1]);
    }
  }

  predicate AllPossible(s: State, es: seq<Event>)
    decreases |es|, 0
  {
    es == [] ||
    (AllPossible(s, es[..|es| - 1]) && Possible(IterateAll(s, es[..|es| - 1]), es[|es| - 1]))
  }

  function IterateAll(s: State, es: seq<Event>): State
    requires AllPossible(s, es)
    decreases |es|, 1
  {
    if es == [] then s else Iterate(IterateAll(s, es[..|es| - 1]), es[|es| - 1])
  }

  // ---------- an iteration is a turn at the request queue ----------

  /** The scheduler's thread, between two iterations, as the only consumer of its blocking queue. */
  ghost predicate Linked(s: State, q: Queue.System<Request>) {
    Queue.Good(q) && q.consumers == [Queue.Idle] && q.queue == s.requests
  }

  /** In this turn the threads that call bring the requests of the event; the scheduler calls front
      while no entry is pending and front_timed otherwise, and gets a request, or none in the time. */
  ghost predicate TurnFor(s: State, q: Queue.System<Request>, e: Event, turn: seq<Queue.Step<Request>>) {
    && Queue.TurnWith(q, turn, s.heap != [], RequestsOf(e.calls))
    && match e
       case Read(_, _, _) => turn[|turn| - 1].Pop?
       case WaitedInVain(_, began, ended) =>
         turn[|turn| - 1].ReturnFalse? && (s.heap != [] ==> IsOver(s.heap[0].when, began, ended))
  }

  /** Such a turn is an event that is possible, and what it leaves is as after the iteration; the
      request that it takes is the one that is served. */
  lemma TurnIterates(s: State, q: Queue.System<Request>, e: Event, turn: seq<Queue.Step<Request>>)
    requires Linked(s, q) && TurnFor(s, q, e, turn)
    ensures Possible(s, e) && Linked(Iterate(s, e), Queue.RunAll(q, turn))
    ensures Queue.RunAll(q, turn).consumed ==
      q.consumed + if e.Read? then [AfterCalls(s, e.calls).requests[0]] else []
  {
    Queue.TurnReads(q, turn, s.heap != [], RequestsOf(e.calls));
    AfterCallsKeeps(s, e.calls);
  }

  /** And every possible event is such a turn: what is possible follows from the protocol of the
      blocking queue. */
  lemma PossibleIffTurn(s: State, q: Queue.System<Request>, e: Event)
    requires Linked(s, q)
    ensures Possible(s, e) <==> exists turn :: TurnFor(s, q, e, turn)
  {
    if Possible(s, e) {
      AfterCallsKeeps(s, e.calls);
      var turn;
      if e.Read? {
        turn := Queue.SomeTurnReads(q, RequestsOf(e.calls), s.heap != []);
      } else {
        turn := Queue.SomeTurnReadsNothing(q, RequestsOf(e.calls));
      }
      assert TurnFor(s, q, e, turn);
    }
    forall turn | TurnFor(s, q, e, turn)
      ensures Possible(s, e)
    {
      TurnIterates(s, q, e, turn);
    }
  }

  // ---------- what every run keeps ----------

  function Entries(es: seq<Execution>): multiset<Schedule> {
    if es == [] then multiset{} else Entries(es[..|es| - 1]) + multiset{es[|es| - 1].entry}
  }

  /** Run in time: not before the deadline, and ahead of nothing that was due earlier. */
  ghost predicate Timely(x: Execution) {
    x.entry in x.pending && x.entry.when <= x.at && forall p :: p in x.pending ==> x.entry.when <= p.when
  }

  ghost predicate AllTimely(s: State) {
    forall i :: 0 <= i < |s.executed| ==> Timely(s.executed[i])
  }

  ghost predicate Good(s: State) {
    && Heap(ByDeadline, s.heap)
    && AllTimely(s)
    && s.accepted == multiset(s.heap) + Entries(s.executed) + s.cancelled
  }

  /** If a cancel takes the root out, the word in front of the array does not hide that the new root
      is too heavy. */
  ghost predicate RequestRepaired(heap: seq<Schedule>, r: Request, below: Schedule) {
    r.CancelRequest? ==>
      var k := Find(heap, SameRunner(r.runner));
      k < |heap| ==> RootRepaired(ByDeadline, heap, k, below)
  }

  ghost predicate Repaired(s: State, e: Event)
    requires Possible(s, e)
  {
    e.Read? ==> RequestRepaired(s.heap, AfterCalls(s, e.calls).requests[0], e.below)
  }

  /** Enough for that: no pending deadline is before the word in front of the array. */
  lemma EarlyWordIsHarmless(heap: seq<Schedule>, r: Request, below: Schedule)
    requires forall x :: x in heap ==> below.when <= x.when
    ensures RequestRepaired(heap, r, below)
  {
    if r.CancelRequest? && Find(heap, SameRunner(r.runner)) < |heap| {
      assert heap[|heap| - 1] in heap;
    }
  }

  lemma PushAddsOne(heap: seq<Schedule>, entry: Schedule)
    requires Heap(ByDeadline, heap)
    ensures var g := Push(ByDeadline, heap, entry);
            Heap(ByDeadline, g) && multiset(g) == multiset(heap) + multiset{entry}
  {
    ByDeadlineIsStrictWeak();
    PushKeeps(ByDeadline, heap, entry);
  }

  lemma PopTakesOne(heap: seq<Schedule>)
    requires Heap(ByDeadline, heap) && heap != []
    ensures var g := Pop(ByDeadline, heap);
            Heap(ByDeadline, g) && multiset(heap) == multiset(g) + multiset{heap[0]}
  {
    ByDeadlineIsStrictWeak();
    PopKeeps(ByDeadline, heap);
    assert heap[0] in multiset(heap);
  }

  lemma RemoveTakesOne(heap: seq<Schedule>, k: nat, below: Schedule)
    requires Heap(ByDeadline, heap) && k < |heap|
    ensures var g := RemoveAt(ByDeadline, heap, k, below);
            && (Heap(ByDeadline, g) <==> RootRepaired(ByDeadline, heap, k, below))
            && multiset(heap) == multiset(g) + multiset{heap[k]}
  {
    ByDeadlineIsStrictWeak();
    RemoveKeepsHeap(ByDeadline, heap, k, below);
    RemoveKeepsElements(ByDeadline, heap, k, below);
    assert heap[k] in multiset(heap);
  }

  /** An entry that comes in, or moves from the heap to either history, keeps the balance. */
  lemma Balance(accepted: multiset<Schedule>, h: multiset<Schedule>, g: multiset<Schedule>,
                ran: multiset<Schedule>, gone: multiset<Schedule>, e: Schedule)
    requires accepted == h + ran + gone
    ensures g == h + multiset{e} ==> accepted + multiset{e} == g + ran + gone
    ensures h == g + multiset{e} ==> accepted == g + (ran + multiset{e}) + gone
    ensures h == g + multiset{e} ==> accepted == g + ran + (gone + multiset{e})
  {
  }

  lemma FrontIsTimely(heap: seq<Schedule>, ended: int)
    requires Heap(ByDeadline, heap) && heap != [] && heap[0].when <= ended
    ensures Timely(Execution(heap[0], ended, heap))
  {
    ByDeadlineIsStrictWeak();
    forall p | p in heap
      ensures heap[0].when <= p.when
    {
      var i :| 0 <= i < |heap| && heap[i] == p;
      FrontIsLeast(ByDeadline, heap, i);
    }
  }

  /** The state after the front entry has been run and popped. */
  function Executed(s: State, ended: int): State
    requires s.heap != []
  {
    s.(heap := Pop(ByDeadline, s.heap), executed := s.executed + [Execution(s.heap[0], ended, s.heap)])
  }

  lemma ExecuteGood(s: State, ended: int)
    requires Good(s) && s.heap != [] && s.heap[0].when <= ended
    ensures Good(Executed(s, ended))
  {
    FrontIsTimely(s.heap, ended);
    PopTakesOne(s.heap);
    var now := Execution(s.heap[0], ended, s.heap);
    Balance(s.accepted, multiset(s.heap), multiset(Pop(ByDeadline, s.heap)), Entries(s.executed),
            s.cancelled, s.heap[0]);
    assert (s.executed + [now])[..|s.executed|] == s.executed;
  }

  lemma CancelGood(s: State, runner: Runnable, now: int, below: Schedule)
    requires Good(s)
    ensures Good(Serve(s, CancelRequest(runner), now, below)) <==>
      RequestRepaired(s.heap, CancelRequest(runner), below)
  {
    var k := Find(s.heap, SameRunner(runner));
    if k < |s.heap| {
      RemoveTakesOne(s.heap, k, below);
      Balance(s.accepted, multiset(s.heap), multiset(RemoveAt(ByDeadline, s.heap, k, below)), Entries(s.executed),
              s.cancelled, s.heap[k]);
    }
  }

  /** The state with one entry more. */
  function Added(s: State, entry: Schedule): State {
    s.(heap := Push(ByDeadline, s.heap, entry), accepted := s.accepted + multiset{entry})
  }

  lemma ServeAdds(s: State, toRun: Runnable, delay: int, now: int, below: Schedule)
    ensures Serve(s, ScheduleRequest(toRun, delay), now, below) == Added(s, Schedule(toRun, now + delay))
  {
  }

  lemma AddedGood(s: State, entry: Schedule)
    requires Good(s)
    ensures Good(Added(s, entry))
  {
    PushAddsOne(s.heap, entry);
    Balance(s.accepted, multiset(s.heap), multiset(Push(ByDeadline, s.heap, entry)), Entries(s.executed),
            s.cancelled, entry);
  }

  lemma ScheduleGood(s: State, toRun: Runnable, delay: int, now: int, below: Schedule)
    requires Good(s)
    ensures Good(Serve(s, ScheduleRequest(toRun, delay), now, below))
  {
    ServeAdds(s, toRun, delay, now, below);
    AddedGood(s, Schedule(toRun, now + delay));
  }

  /** Serving a request keeps everything exactly when a removed root is repaired. */
  lemma ServeGood(s: State, r: Request, now: int, below: Schedule)
    requires Good(s)
    ensures Good(Serve(s, r, now, below)) <==> RequestRepaired(s.heap, r, below)
  {
    match r
    case ContinueRequest =>
    case ExitRequest =>
    case CancelRequest(runner) => CancelGood(s, runner, now, below);
    case ScheduleRequest(toRun, delay) => ScheduleGood(s, toRun, delay, now, below);
  }

  /** Calls only touch the request queue. */
  lemma CallsGood(s: State, calls: seq<Call>, requests: seq<Request>)
    requires Good(s)
    ensures Good(AfterCalls(s, calls).(requests := requests)) && AfterCalls(s, calls).heap == s.heap
  {
    AfterCallsKeeps(s, calls);
  }

  lemma IterateGood(s: State, e: Event)
    requires Good(s) && Possible(s, e)
    ensures Good(Iterate(s, e)) <==> Repaired(s, e)
  {
    var t := AfterCalls(s, e.calls);
    match e
    case Read(calls, now, below) =>
      CallsGood(s, calls, t.requests[1..]);
      ServeGood(t.(requests := t.requests[1..]), t.requests[0], now, below);
    case WaitedInVain(calls, _, ended) =>
      CallsGood(s, calls, t.requests);
      ExecuteGood(t, ended);
  }

  ghost predicate AllRepaired(s: State, es: seq<Event>)
    requires AllPossible(s, es)
    decreases |es|
  {
    es == [] ||
    (AllRepaired(s, es[..|es| - 1]) && Repaired(IterateAll(s, es[..|es| - 1]), es[|es| - 1]))
  }

  /** Good at the start and after every event. */
  ghost predicate AlwaysGood(s: State, es: seq<Event>)
    requires AllPossible(s, es)
    decreases |es|
  {
    Good(IterateAll(s, es)) && (es == [] || AlwaysGood(s, es[..|es| - 1]))
  }

  /** Over every run: each runnable is run in time, and what was accepted has been run, cancelled
      or is still pending, throughout, exactly when no cancel leaves a root unrepaired. */
  lemma {:induction false} RunGood(s: State, es: seq<Event>)
    requires Good(s) && AllPossible(s, es)
    ensures AlwaysGood(s, es) <==> AllRepaired(s, es)
    decreases |es|
  {
    if es != [] {
      RunGood(s, es[..|es| - 1]);
      if AlwaysGood(s, es[..|es| - 1]) {
        IterateGood(IterateAll(s, es[..|es| - 1]), es[|es| - 1]);
      }
    }
  }

  lemma RunStaysGood(s: State, es: seq<Event>)
    requires AllPossible(s, es)
    ensures Good(s) && AllRepaired(s, es) ==> Good(IterateAll(s, es))
  {
    if Good(s) {
      RunGood(s, es);
    }
  }

  // ---------- what is promised ----------

  /** No pending entry is due before the front one. */
  ghost predicate FrontFirst(heap: seq<Schedule>) {
    forall i :: 0 <= i < |heap| ==> heap[0].when <= heap[i].when
  }

  /** What the scheduler is for, without the order inside the heap: what has been run was run in
      time, the entry to be run next is the earliest, and nothing is lost. */
  ghost predicate Kept(s: State) {
    && AllTimely(s)
    && FrontFirst(s.heap)
    && s.accepted == multiset(s.heap) + Entries(s.executed) + s.cancelled
  }

  lemma GoodIsKept(s: State)
    requires Good(s)
    ensures Kept(s)
  {
    ByDeadlineIsStrictWeak();
    forall i | 0 <= i < |s.heap|
      ensures s.heap[0].when <= s.heap[i].when
    {
      FrontIsLeast(ByDeadline, s.heap, i);
    }
  }

  /** A root that is not repaired is later than one of its children. */
  lemma UnrepairedFront(heap: seq<Schedule>, r: Request, now: int, below: Schedule)
    requires !RequestRepaired(heap, r, below)
    ensures !FrontFirst(ServeHeap(heap, r, now, below))
  {
    var last := heap[|heap| - 1];
    var g := heap[..|heap| - 1][0 := last];
    var j :| 0 < j < |heap| - 1 && Parent(j) == 0 && ByDeadline(heap[j], last);
    assert ServeHeap(heap, r, now, below) == g;
    assert g[j] == heap[j];
  }

  lemma IterateKept(s: State, e: Event)
    requires Good(s) && Possible(s, e)
    ensures Kept(Iterate(s, e)) <==> Repaired(s, e)
  {
    IterateGood(s, e);
    if Repaired(s, e) {
      GoodIsKept(Iterate(s, e));
    } else {
      AfterCallsKeeps(s, e.calls);
      UnrepairedFront(s.heap, AfterCalls(s, e.calls).requests[0], e.now, e.below);
    }
  }

  /** Kept at the start and after every event. */
  ghost predicate AlwaysKept(s: State, es: seq<Event>)
    requires AllPossible(s, es)
    decreases |es|
  {
    Kept(IterateAll(s, es)) && (es == [] || AlwaysKept(s, es[..|es| - 1]))
  }

  /** Over every run, the promises are kept throughout exactly when no cancel leaves a root
      unrepaired. */
  lemma {:induction false} RunKept(s: State, es: seq<Event>)
    requires Good(s) && AllPossible(s, es)
    ensures AlwaysKept(s, es) <==> AllRepaired(s, es)
    decreases |es|
  {
    if es == [] {
      GoodIsKept(s);
    } else {
      RunKept(s, es[..|es| - 1]);
      if AllRepaired(s, es[..|es| - 1]) {
        RunStaysGood(s, es[..|es| - 1]);
        IterateKept(IterateAll(s, es[..|es| - 1]), es[|es| - 1]);
      }
    }
  }

  predicate OnlyWaits(es: seq<Event>) {
    forall i :: 0 <= i < |es| ==> es[i].WaitedInVain?
  }

  lemma {:induction false} WaitsAreRepaired(s: State, es: seq<Event>)
    requires AllPossible(s, es) && OnlyWaits(es)
    ensures AllRepaired(s, es)
    decreases |es|
  {
    if es != [] {
      WaitsAreRepaired(s, es[..|es| - 1]);
    }
  }

  lemma RunSnoc(s: State, es: seq<Event>, e: Event)
    requires AllPossible(s, es) && Possible(IterateAll(s, es), e)
    ensures AllPossible(s, es + [e]) && IterateAll(s, es + [e]) == Iterate(IterateAll(s, es), e)
  {
    assert (es + [e])[..|es|] == es;
  }

  /** With an entry out of order at the front and no request, the next execution is out of time. */
  lemma UntimelyNext(s: State)
    requires !FrontFirst(s.heap) && s.requests == []
    ensures var wait := WaitedInVain([], s.heap[0].when, s.heap[0].when);
            Possible(s, wait) && !AllTimely(Iterate(s, wait))
  {
    var front := s.heap[0];
    var t := Iterate(s, WaitedInVain([], front.when, front.when));
    AfterCallsKeeps(s, []);
    var i :| 0 <= i < |s.heap| && s.heap[i].when < front.when;
    assert s.heap[i] in s.heap;
    assert !Timely(Execution(front, front.when, s.heap));
    assert t.executed[|s.executed|] == Execution(front, front.when, s.heap);
  }

  /** Everything that is run as its time comes, with no request any more, is run in time. */
  ghost predicate WaitsAreTimely(t: State) {
    forall es :: AllPossible(t, es) && OnlyWaits(es) ==> AllTimely(IterateAll(t, es))
  }

  lemma GoodIsTimely(t: State)
    requires Good(t)
    ensures WaitsAreTimely(t)
  {
    forall es | AllPossible(t, es) && OnlyWaits(es)
      ensures AllTimely(IterateAll(t, es))
    {
      WaitsAreRepaired(t, es);
      RunStaysGood(t, es);
    }
  }

  lemma UntimelyWaits(t: State)
    requires !FrontFirst(t.heap) && t.requests == []
    ensures !WaitsAreTimely(t)
  {
    UntimelyNext(t);
    var wait := WaitedInVain([], t.heap[0].when, t.heap[0].when);
    RunSnoc(t, [], wait);
    assert [] + [wait] == [wait] && OnlyWaits([wait]);
  }

  /** What a request that leaves none behind leads to: if and only if it leaves no root unrepaired,
      everything that is then run as its time comes is run in time. */
  lemma RepairDecides(s: State, e: Event)
    requires Good(s) && Possible(s, e) && Iterate(s, e).requests == []
    ensures Repaired(s, e) <==> WaitsAreTimely(Iterate(s, e))
  {
    IterateGood(s, e);
    if Repaired(s, e) {
      GoodIsTimely(Iterate(s, e));
    } else {
      AfterCallsKeeps(s, e.calls);
      UnrepairedFront(s.heap, AfterCalls(s, e.calls).requests[0], e.now, e.below);
      UntimelyWaits(Iterate(s, e));
    }
  }

  // ---------- a run that is not repaired ----------

  /** A call that is served at once. */
  lemma ReadOne(s: State, c: Call, now: int, below: Schedule)
    requires s.requests == [] && !c.CallStopOnEmpty?
    ensures Possible(s, Read([c], now, below))
    ensures Iterate(s, Read([c], now, below)) == Serve(s, RequestOf(c), now, below)
  {
    assert [c][..0] == [] && AfterCalls(s, []) == s;
    var r := RequestOf(c);
    assert AfterCalls(s, [c]) == s.(requests := s.requests + [r]);
    assert (s.requests + [r])[0] == r && (s.requests + [r])[1..] == s.requests;
  }

  lemma PushLatest(heap: seq<Schedule>, x: Schedule)
    requires forall y :: y in heap ==> y.when <= x.when
    ensures Push(ByDeadline, heap, x) == heap + [x]
  {
    if heap != [] {
      assert heap[Parent(|heap|)] in heap;
    }
  }

  const FIRST := Schedule(1, 10)
  const SECOND := Schedule(2, 20)
  const THIRD := Schedule(3, 30)
  const LATE := Schedule(0, 99)

  lemma FirstCancelled()
    ensures RemoveFirst(ByDeadline, [FIRST, SECOND, THIRD], SameRunner(1), LATE) == [THIRD, SECOND]
  {
    var h := [FIRST, SECOND, THIRD];
    assert h[..2][0 := h[2]] == [THIRD, SECOND];
    assert Find(h, SameRunner(1)) == 0;
  }

  lemma ScheduleStep(es: seq<Event>, r: Runnable, delay: int) returns (longer: seq<Event>)
    requires AllPossible(INITIAL, es) && IterateAll(INITIAL, es).requests == []
    requires forall y :: y in IterateAll(INITIAL, es).heap ==> y.when <= delay
    ensures longer == es + [Read([CallSchedule(r, delay)], 0, LATE)] && AllPossible(INITIAL, longer)
    ensures var s, t := IterateAll(INITIAL, es), IterateAll(INITIAL, longer);
            t.heap == s.heap + [Schedule(r, delay)] && t.requests == [] && t.executed == s.executed
  {
    var s, e := IterateAll(INITIAL, es), Read([CallSchedule(r, delay)], 0, LATE);
    ReadOne(s, CallSchedule(r, delay), 0, LATE);
    RunSnoc(INITIAL, es, e);
    PushLatest(s.heap, Schedule(r, delay));
    longer := es + [e];
  }

  lemma ThreeScheduled() returns (es: seq<Event>)
    ensures AllPossible(INITIAL, es)
    ensures var s := IterateAll(INITIAL, es);
            s.heap == [FIRST, SECOND, THIRD] && s.requests == [] && s.executed == []
  {
    es := [];
    es := ScheduleStep(es, 1, 10);
    es := ScheduleStep(es, 2, 20);
    es := ScheduleStep(es, 3, 30);
  }

  lemma ThirdRuns(s: State)
    requires s.heap == [THIRD, SECOND] && s.requests == [] && s.executed == []
    ensures var wait := WaitedInVain([], 0, 30);
            Possible(s, wait) && Iterate(s, wait).executed == [Execution(THIRD, 30, [THIRD, SECOND])]
  {
    AfterCallsKeeps(s, []);
  }

  lemma ThirdIsUntimely(s: State)
    requires s.executed == [Execution(THIRD, 30, [THIRD, SECOND])]
    ensures !AllTimely(s)
  {
    assert SECOND in [THIRD, SECOND];
    assert !Timely(s.executed[0]);
  }

  /** Three runnables are scheduled, and the first is cancelled while a word that looks late is in
      front of the array: then the third is executed ahead of the second, which was due before. */
  lemma OutOfTime() returns (es: seq<Event>)
    ensures AllPossible(INITIAL, es)
    ensures IterateAll(INITIAL, es).executed == [Execution(THIRD, 30, [THIRD, SECOND])]
    ensures !AllTimely(IterateAll(INITIAL, es))
  {
    var three := ThreeScheduled();
    FirstCancelled();
    var s, cancel := IterateAll(INITIAL, three), Read([CallCancel(1)], 0, LATE);
    ReadOne(s, CallCancel(1), 0, LATE);
    RunSnoc(INITIAL, three, cancel);
    ThirdRuns(Iterate(s, cancel));
    var wait := WaitedInVain([], 0, 30);
    RunSnoc(INITIAL, three + [cancel], wait);
    es := three + [cancel] + [wait];
    ThirdIsUntimely(IterateAll(INITIAL, es));
  }

  // ---------- beginnings of runs ----------

  lemma {:induction false} PossiblePrefix(s: State, es: seq<Event>, k: nat)
    requires AllPossible(s, es) && k <= |es|
    ensures AllPossible(s, es[..k])
    decreases |es|
  {
    if k < |es| {
      PossiblePrefix(s, es[..|es| - 1], k);
      assert es[..|es| - 1][..k] == es[..k];
    } else {
      assert es[..k] == es;
    }
  }

  lemma NextIterate(s: State, es: seq<Event>, i: nat)
    requires AllPossible(s, es) && i < |es|
    ensures AllPossible(s, es[..i]) && Possible(IterateAll(s, es[..i]), es[i])
    ensures AllPossible(s, es[..i + 1]) && IterateAll(s, es[..i + 1]) == Iterate(IterateAll(s, es[..i]), es[i])
  {
    PossiblePrefix(s, es, i + 1);
    assert es[..i + 1][..i] == es[..i];
  }

  // ---------- what the calls lead to ----------

  /** What a call does when it is served at once.  A scheduled runnable is due its delay after that
      moment; a cancel takes one entry of that runnable, from a heap in order; stop ends the loop;
      setStopOnEmpty changes the flag alone. */
  ghost predicate LeadsTo(s: State, c: Call, now: int, t: State) {
    match c
    case CallSchedule(r, delay) =>
      && multiset(t.heap) == multiset(s.heap) + multiset{Schedule(r, now + delay)}
      && t.accepted == s.accepted + multiset{Schedule(r, now + delay)}
      && t == s.(heap := t.heap, accepted := t.accepted)
    case CallCancel(r) =>
      && (Heap(ByDeadline, s.heap) ==> CancelsOne(s, t, r))
      && t == s.(heap := t.heap, cancelled := t.cancelled)
    case CallStop => t == s.(exited := true)
    case CallStopOnEmpty(stop) => t == s.(emptyStop := stop)
  }

  lemma CallServed(s: State, c: Call, now: int, below: Schedule)
    requires s.requests == []
    ensures Possible(s, Read([c], now, below)) && LeadsTo(s, c, now, Iterate(s, Read([c], now, below)))
  {
    CallIterates(s, c, now, below);
    match c
    case CallSchedule(r, delay) => ScheduleAdds(s, r, delay, now, below);
    case CallCancel(r) => if Heap(ByDeadline, s.heap) { CancelTakesOne(s, r, now, below); }
    case _ =>
  }

  lemma CallIterates(s: State, c: Call, now: int, below: Schedule)
    requires s.requests == []
    ensures Possible(s, Read([c], now, below))
    ensures Iterate(s, Read([c], now, below)) ==
      Serve(s.(emptyStop := if c.CallStopOnEmpty? then c.stop else s.emptyStop), RequestOf(c), now, below)
  {
    OneCall(s, c);
    var r := RequestOf(c);
    assert ([r])[1..] == s.requests;
  }

  lemma PushElements(heap: seq<Schedule>, entry: Schedule)
    ensures multiset(Push(ByDeadline, heap, entry)) == multiset(heap) + multiset{entry}
  {
    SiftUpElements(ByDeadline, heap + [entry], |heap|);
  }

  lemma ScheduleAdds(s: State, r: Runnable, delay: int, now: int, below: Schedule)
    ensures LeadsTo(s, CallSchedule(r, delay), now, Serve(s, ScheduleRequest(r, delay), now, below))
  {
    ServeAdds(s, r, delay, now, below);
    PushElements(s.heap, Schedule(r, now + delay));
  }

  /** One entry of the runnable is gone, or there was none. */
  ghost predicate CancelsOne(s: State, t: State, r: Runnable) {
    if exists x :: x in s.heap && x.toRun == r then
      exists x :: && x in s.heap && x.toRun == r
                  && multiset(s.heap) == multiset(t.heap) + multiset{x} && t.cancelled == s.cancelled + multiset{x}
    else t.heap == s.heap && t.cancelled == s.cancelled
  }

  lemma CancelTakesOne(s: State, r: Runnable, now: int, below: Schedule)
    requires Heap(ByDeadline, s.heap)
    ensures CancelsOne(s, Serve(s, CancelRequest(r), now, below), r)
  {
    var k := Find(s.heap, SameRunner(r));
    if k < |s.heap| {
      RemoveTakesOne(s.heap, k, below);
      assert s.heap[k] in s.heap;
    } else {
      assert forall i :: 0 <= i < |s.heap| ==> !SameRunner(r)(s.heap[i]);
    }
  }

  /** A call adds its request, and the flag may change at once. */
  lemma OneCall(s: State, c: Call)
    ensures AfterCalls(s, [c]) == s.(requests := s.requests + [RequestOf(c)],
                                     emptyStop := if c.CallStopOnEmpty? then c.stop else s.emptyStop)
    ensures s.requests == [] ==> AfterCalls(s, [c]).requests[0] == RequestOf(c)
    ensures s.requests == [] ==> AfterCalls(s, [c]).requests[1..] == []
  {
    assert [c][..0] == [] && AfterCalls(s, []) == s;
  }

  /** What a wait in vain leads to: the first entry is run, and recorded with all that was pending, and
      leaves the heap; nothing else changes but the requests of the calls that came meanwhile. */
  lemma WaitServed(s: State, calls: seq<Call>, began: int, ended: int)
    requires Possible(s, WaitedInVain(calls, began, ended))
    ensures s.heap != []
    ensures var t := Iterate(s, WaitedInVain(calls, began, ended));
            && t.executed == s.executed + [Execution(s.heap[0], ended, s.heap)] && s.heap[0].when <= ended
            && multiset(s.heap) == multiset(t.heap) + multiset{s.heap[0]}
            && t.requests == RequestsOf(calls)
            && t.accepted == s.accepted && t.cancelled == s.cancelled && t.exited == s.exited
  {
    AfterCallsKeeps(s, calls);
    PopElements(ByDeadline, s.heap);
  }

  /** The loop is over after stop, and after setStopOnEmpty(true) with nothing pending. */
  lemma StopEnds(s: State, now: int, below: Schedule)
    requires s.requests == []
    ensures Done(Iterate(s, Read([CallStop], now, below)))
    ensures s.heap == [] ==> Done(Iterate(s, Read([CallStopOnEmpty(true)], now, below)))
    ensures s.exited || (s.emptyStop && s.heap == []) <==> Done(s)
  {
    CallServed(s, CallStop, now, below);
    CallServed(s, CallStopOnEmpty(true), now, below);
  }

  /** The loop was not over before any of these events. */
  predicate NotDoneBefore(s: State, es: seq<Event>)
    requires AllPossible(s, es)
    decreases |es|
  {
    es == [] || (NotDoneBefore(s, es[..|es| - 1]) && !Done(IterateAll(s, es[..|es| - 1])))
  }

  lemma NotDoneSnoc(s: State, es: seq<Event>, i: nat)
    requires AllPossible(s, es) && i < |es|
    ensures AllPossible(s, es[..i]) && AllPossible(s, es[..i + 1])
    ensures NotDoneBefore(s, es[..i + 1]) <==> NotDoneBefore(s, es[..i]) && !Done(IterateAll(s, es[..i]))
  {
    NextIterate(s, es, i);
    assert es[..i + 1][..i] == es[..i];
  }

  // ---------- the class ----------

  class Scheduler {
    const queue: PriorityQueue<Schedule>
    var requests: seq<Request>
    var emptyStop: bool
    var exited: bool
    ghost var accepted: multiset<Schedule>
    ghost var executed: seq<Execution>
    ghost var cancelled: multiset<Schedule>

    constructor ()
      ensures Valid() && fresh(queue) && View() == INITIAL
      ensures queue.Live() == [] && requests == [] && !emptyStop && !exited
      ensures accepted == multiset{} && executed == [] && cancelled == multiset{}
    {
      ByDeadlineIsStrictWeak();
      queue := new PriorityQueue(ByDeadline);
      requests, emptyStop, exited := [], false, false;
      accepted, executed, cancelled := multiset{}, [], multiset{};
    }

    ghost predicate Valid()
      reads this, queue
    {
      queue.Valid() && queue.less == ByDeadline
    }

    ghost function View(): State
      requires Valid()
      reads this, queue
    {
      State(queue.Live(), requests, emptyStop, exited, accepted, executed, cancelled)
    }

    /** schedule, cancel, stop and setStopOnEmpty, called by any thread. */
    method DoCall(c: Call)
      requires Valid()
      modifies `requests, `emptyStop
      ensures Valid() && View() == AfterCalls(old(View()), [c])
    {
      if c.CallStopOnEmpty? {
        emptyStop := c.stop;
      }
      requests := requests + [RequestOf(c)];
      assert [c][..0] == [];
    }

    method DoCalls(calls: seq<Call>)
      requires Valid()
      modifies `requests, `emptyStop
      ensures Valid() && View() == AfterCalls(old(View()), calls)
    {
      for i := 0 to |calls|
        invariant Valid() && View() == AfterCalls(old(View()), calls[..i])
      {
        DoCall(calls[i]);
        assert calls[..i + 1][..i] == calls[..i];
      }
      assert calls[..|calls|] == calls;
    }

    method ServeRequest(r: Request, now: int, below: Schedule)
      requires Valid()
      modifies this, queue
      ensures Valid() && View() == Serve(old(View()), r, now, below)
    {
      match r
      case ContinueRequest =>
      case ExitRequest => exited := true;
      case CancelRequest(runner) => ServeCancel(runner, now, below);
      case ScheduleRequest(toRun, delay) => ServeSchedule(toRun, delay, now, below);
    }

    method ServeCancel(runner: Runnable, ghost now: int, below: Schedule)
      requires Valid()
      modifies this, queue
      ensures Valid() && View() == Serve(old(View()), CancelRequest(runner), now, below)
    {
      ghost var k := Find(queue.Live(), SameRunner(runner));
      if k < |queue.Live()| {
        cancelled := cancelled + multiset{queue.Live()[k]};
      }
      var _ := queue.Remove(SameRunner(runner), below);
    }

    method ServeSchedule(toRun: Runnable, delay: int, now: int, ghost below: Schedule)
      requires Valid()
      modifies this, queue
      ensures Valid() && View() == Serve(old(View()), ScheduleRequest(toRun, delay), now, below)
    {
      var entry := Schedule(toRun, delay + now);
      queue.PushBack(entry);
      accepted := accepted + multiset{entry};
    }

    method OneIteration(e: Event)
      requires Valid() && Possible(View(), e)
      modifies this, queue
      ensures Valid() && View() == Iterate(old(View()), e)
    {
      AfterCallsKeeps(View(), e.calls);
      DoCalls(e.calls);
      match e
      case Read(_, now, below) =>
        var request := requests[0];
        requests := requests[1..];
        ServeRequest(request, now, below);
      case WaitedInVain(_, _, ended) =>
        var top := queue.Front();
        executed := executed + [Execution(top, ended, queue.Live())];
        queue.PopFront();
    }

    /** The main loop, for as long as the environment goes on. */
    method Run(env: seq<Event>) returns (ghost used: nat)
      requires Valid() && AllPossible(View(), env)
      modifies this, queue
      ensures Valid() && used <= |env| && AllPossible(old(View()), env[..used])
      ensures View() == IterateAll(old(View()), env[..used])
      ensures Good(old(View())) && AllRepaired(old(View()), env[..used]) ==> Good(View())
      ensures used < |env| ==> exited || (emptyStop && queue.Live() == [] && requests == [])
      ensures NotDoneBefore(old(View()), env[..used])
    {
      ghost var start := View();
      used := 0;
      var i := 0;
      PossiblePrefix(start, env, 0);
      var empty := queue.Empty();
      while i < |env| && !exited && !(emptyStop && empty && requests == [])
        invariant Valid() && (empty <==> queue.Live() == [])
        invariant 0 <= i == used <= |env| && AllPossible(start, env[..i])
        invariant View() == IterateAll(start, env[..i])
        invariant NotDoneBefore(start, env[..i])
      {
        NextIterate(start, env, i);
        NotDoneSnoc(start, env, i);
        OneIteration(env[i]);
        i := i + 1;
        used := used + 1;
        empty := queue.Empty();
      }
      RunStaysGood(start, env[..used]);
    }
  }
}
