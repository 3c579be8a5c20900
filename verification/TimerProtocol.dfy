/** The timer of proc::StateMachine: callers of setTimeoutStim, normally only the machine's own
    thread, cancel and schedule one runnable through the request queue of the scheduler, while the
    scheduler's thread serves requests and runs entries, and any other threads schedule and cancel
    runnables of their own. */
module TimerProtocol {
  import opened BinaryHeap
  import opened Common
  import opened Scheduler
  import Queue = BlockingQueue

  /** Where a caller is: in schedule_timeout, or in clearTimeout once it has seen the flag up. */
  datatype Pc = Outside | Cancelled | Armed | Clearing

  /** Where the scheduler's thread is: between two turns of its loop; in front_timed, which waits only
      on an empty request queue; past a wait that ran out, so that the first entry is to be run; or
      in run() of that entry, which it has yet to pop. */
  datatype Turn = Between | Waiting | Decided | Running

  /** The first caller is the machine's thread, which also clears the timer. */
  datatype System =
    System(heap: seq<Schedule>, requests: seq<Request>, callers: seq<Pc>, engaged: bool, turn: Turn)

  function Start(callers: nat): System {
    System([], [], seq(callers, _ => Outside), false, Between)
  }

  datatype Step =
    | LookAtFlag              // clearTimeout: look whether the timer is engaged
    | ClearCancel             // and if it was, cancel it
    | TimeoutCancel(c: nat)   // schedule_timeout: cancel,
    | TimeoutArm(c: nat)      // set the fields of the timer,
    | TimeoutSchedule(c: nat, delay: int) // and schedule it
    | OtherThread(call: Call)
    | ServeOne(now: int, below: Schedule) // the scheduler serves a request, with below in front of the array
    | Wait                    // the scheduler finds no request and waits for the first deadline,
    | Wake                    // until a push signals,
    | WaitEnds(ended: int)    // or its time is over,
    | RunFirst                // after which it runs the first entry
    | PopFirst                // and then pops it

  predicate Mentions(c: Call, timer: Runnable) {
    (c.CallSchedule? && c.toRun == timer) || (c.CallCancel? && c.runner == timer)
  }

  predicate At(s: System, c: nat, pc: Pc) {
    c < |s.callers| && s.callers[c] == pc
  }

  /** A push holds the mutex of the request queue until it has signalled a scheduler that waits. */
  predicate MayPush(s: System) {
    s.turn == Waiting ==> s.requests == []
  }

  /** A wait can still end by its time when a request is there already, namely before the push that
      brought it has signalled. */
  predicate Enabled(s: System, a: Step, timer: Runnable) {
    match a
    case LookAtFlag => At(s, 0, Outside)
    case ClearCancel => At(s, 0, Clearing) && MayPush(s)
    case TimeoutCancel(c) => At(s, c, Outside) && MayPush(s)
    case TimeoutArm(c) => At(s, c, Cancelled)
    case TimeoutSchedule(c, _) => At(s, c, Armed) && MayPush(s)
    case OtherThread(c) => !Mentions(c, timer) && MayPush(s)
    case ServeOne(_, _) => s.turn == Between && s.requests != []
    case Wait => s.turn == Between && s.heap != [] && s.requests == []
    case Wake => s.turn == Waiting && s.requests != []
    case WaitEnds(ended) => s.turn == Waiting && s.heap != [] && s.heap[0].when <= ended
    case RunFirst => s.turn == Decided && s.heap != []
    case PopFirst => s.turn == Running && s.heap != []
  }

  ghost function Next(s: System, a: Step, timer: Runnable): System
    requires Enabled(s, a, timer)
  {
    match a
    case LookAtFlag => if s.engaged then s.(callers := s.callers[0 := Clearing]) else s
    case ClearCancel => s.(requests := s.requests + [CancelRequest(timer)], callers := s.callers[0 := Outside])
    case TimeoutCancel(c) => s.(requests := s.requests + [CancelRequest(timer)], callers := s.callers[c := Cancelled])
    case TimeoutArm(c) => s.(engaged := true, callers := s.callers[c := Armed])
    case TimeoutSchedule(c, delay) =>
      s.(requests := s.requests + [ScheduleRequest(timer, delay)], callers := s.callers[c := Outside])
    case OtherThread(c) => s.(requests := s.requests + [RequestOf(c)])
    case ServeOne(now, below) =>
      s.(heap := ServeHeap(s.heap, s.requests[0], now, below), requests := s.requests[1..])
    case Wait => s.(turn := Waiting)
    case Wake => s.(turn := Between)
    case WaitEnds(_) => s.(turn := Decided)
    case RunFirst => s.(turn := Running, engaged := s.engaged && s.heap[0].toRun != timer)
    case PopFirst => s.(heap := Pop(ByDeadline, s.heap), turn := Between)
  }

  ghost predicate AllEnabled(s: System, run: seq<Step>, timer: Runnable)
    decreases |run|
  {
    run == [] || (Enabled(s, run[0], timer) && AllEnabled(Next(s, run[0], timer), run[1..], timer))
  }

  ghost function RunAll(s: System, run: seq<Step>, timer: Runnable): System
    requires AllEnabled(s, run, timer)
    decreases |run|
  {
    if run == [] then s else RunAll(Next(s, run[0], timer), run[1..], timer)
  }

  /** The removal takes the entry that was found, not the parent of a light last one. */
  predicate TakesFound(heap: seq<Schedule>, r: Runnable) {
    var k := Find(heap, SameRunner(r));
    k < |heap| ==> !LightLast(ByDeadline, heap, k)
  }

  /** A cancel of the timer, if it is served now, takes the entry found. */
  predicate Regular(s: System, a: Step, timer: Runnable)
    requires Enabled(s, a, timer)
  {
    a.ServeOne? && s.requests[0] == CancelRequest(timer) ==> TakesFound(s.heap, timer)
  }

  ghost predicate AllRegular(s: System, run: seq<Step>, timer: Runnable)
    requires AllEnabled(s, run, timer)
    decreases |run|
  {
    run == [] || (Regular(s, run[0], timer) && AllRegular(Next(s, run[0], timer), run[1..], timer))
  }

  // ---------- the turns follow from the protocol of the request queue ----------

  /** The request queue with the scheduler's thread as its only consumer. */
  ghost predicate Tracks(s: System, q: Queue.System<Request>) {
    && Queue.Good(q) && q.queue == s.requests
    && match q.consumers[0]
       case Idle => s.turn == Between || s.turn == Running
       case Waiting(timed) => timed == (s.heap != []) && s.turn == if timed then Waiting else Between
       case Expired => s.turn == Decided && s.heap != []
       case _ => s.turn == Between
  }

  /** The scheduler calls front or front_timed at the top of its loop, and its waits end no earlier
      than they should. */
  predicate Proper(s: System, a: Queue.Step<Request>, now: int) {
    && (a.Front? ==> s.turn == Between && a.timed == (s.heap != []))
    && (a.Expire? && s.heap != [] ==> s.heap[0].when <= now)
  }

  /** Each step of the queue's protocol is a push when no signal is outstanding, one of the steps
      above, or none. */
  lemma QueueStepIsTurn(s: System, q: Queue.System<Request>, a: Queue.Step<Request>, now: int, timer: Runnable)
    requires Tracks(s, q) && Queue.Enabled(q, a) && Proper(s, a, now)
    ensures var r := Queue.Next(q, a);
            match a
            case Append(v) => MayPush(s) && Tracks(s.(requests := s.requests + [v]), r)
            case CheckSignal(_) => Tracks(s, r) || (Enabled(s, Wake, timer) && Tracks(Next(s, Wake, timer), r))
            case Front(_, _) => Tracks(s, r) || (Enabled(s, Wait, timer) && Tracks(Next(s, Wait, timer), r))
            case Reread(_) => Tracks(s, r)
            case Expire(_) => Enabled(s, WaitEnds(now), timer) && Tracks(Next(s, WaitEnds(now), timer), r)
            case ReturnFalse(_) => Enabled(s, RunFirst, timer) && Tracks(Next(s, RunFirst, timer), r)
            case Pop(_) =>
              && s.turn == Between && s.requests != [] && r.consumed == q.consumed + [s.requests[0]]
              && forall below :: Enabled(s, ServeOne(now, below), timer) ==>
                   Tracks(Next(s, ServeOne(now, below), timer), r)
  {
    Queue.StepGood(q, a);
    if a.CheckSignal? && a.chosen.Some? {
      assert Queue.Asleep(q, a.chosen.value);
    }
  }

  /** And the other way round: where the scheduler may take one of the steps above, its thread is at
      that place of the queue's protocol, in a timed wait until the first deadline at least; and where
      the queue's mutex is free, any thread may push. */
  lemma TurnIsQueueStep(s: System, q: Queue.System<Request>, now: int, below: Schedule, timer: Runnable)
    requires Tracks(s, q)
    ensures Enabled(s, Wait, timer) <==>
      s.turn == Between && q.consumers[0].Idle? && q.queue == [] && s.heap != []
    ensures Enabled(s, Wake, timer) <==>
      s.heap != [] && q.consumers[0].Waiting? && Queue.Enabled(q, Queue.CheckSignal(Some(0)))
    ensures Enabled(s, WaitEnds(now), timer) <==>
      Queue.Enabled(q, Queue.Expire(0)) && s.heap != [] && s.heap[0].when <= now
    ensures Enabled(s, RunFirst, timer) <==> q.consumers[0].Expired?
    ensures Queue.Enabled(q, Queue.Pop(0)) ==> Enabled(s, ServeOne(now, below), timer)
    ensures !q.pushing ==> MayPush(s)
  {
    if q.consumers[0].Waiting? {
      assert Queue.Asleep(q, 0);
    }
  }

  // ---------- how many entries of the heap are the timer's ----------

  function Count(h: seq<Schedule>, timer: Runnable): nat {
    if h == [] then 0 else (if h[0].toRun == timer then 1 else 0) + Count(h[1..], timer)
  }

  lemma {:induction false} CountConcat(a: seq<Schedule>, b: seq<Schedule>, timer: Runnable)
    ensures Count(a + b, timer) == Count(a, timer) + Count(b, timer)
  {
    if a == [] {
      assert a + b == b;
    } else {
      CountConcat(a[1..], b, timer);
      assert (a + b)[1..] == a[1..] + b;
    }
  }

  lemma CountOne(x: Schedule, timer: Runnable)
    ensures Count([x], timer) == if x.toRun == timer then 1 else 0
  {
    assert [x][1..] == [];
  }

  lemma CountOut(h: seq<Schedule>, i: nat, timer: Runnable)
    requires i < |h|
    ensures multiset(h) == multiset(h[..i] + h[i + 1..]) + multiset{h[i]}
    ensures Count(h, timer) == Count(h[..i] + h[i + 1..], timer) + if h[i].toRun == timer then 1 else 0
  {
    assert h == h[..i] + ([h[i]] + h[i + 1..]);
    CountConcat(h[..i], h[i + 1..], timer);
    CountConcat(h[..i], [h[i]] + h[i + 1..], timer);
    CountConcat([h[i]], h[i + 1..], timer);
    CountOne(h[i], timer);
  }

  lemma {:induction false} CountOfElements(a: seq<Schedule>, b: seq<Schedule>, timer: Runnable)
    requires multiset(a) == multiset(b)
    ensures Count(a, timer) == Count(b, timer)
    decreases |a|
  {
    if a == [] {
      assert |multiset(b)| == |multiset(a)| == 0;
    } else {
      assert a[0] in multiset(a);
      assert a[0] in b;
      var i :| 0 <= i < |b| && b[i] == a[0];
      CountOut(b, i, timer);
      CountOut(a, 0, timer);
      SameRest(a, b, i);
      CountOfElements(a[1..], b[..i] + b[i + 1..], timer);
    }
  }

  lemma SameRest(a: seq<Schedule>, b: seq<Schedule>, i: nat)
    requires a != [] && i < |b| && a[0] == b[i] && multiset(a) == multiset(b)
    ensures multiset(a[1..]) == multiset(b[..i] + b[i + 1..]) && a[..0] + a[0 + 1..] == a[1..]
  {
    assert a == [a[0]] + a[1..];
    assert b == b[..i] + [b[i]] + b[i + 1..];
    assert multiset(a[1..]) == multiset(a) - multiset{a[0]};
  }

  lemma {:induction false} CountZero(h: seq<Schedule>, timer: Runnable)
    ensures Count(h, timer) == 0 <==> forall i :: 0 <= i < |h| ==> h[i].toRun != timer
  {
    if h != [] {
      CountZero(h[1..], timer);
    }
  }

  lemma CountPush(h: seq<Schedule>, x: Schedule, timer: Runnable)
    ensures Count(Push(ByDeadline, h, x), timer) == Count(h, timer) + if x.toRun == timer then 1 else 0
  {
    SiftUpElements(ByDeadline, h + [x], |h|);
    CountOfElements(Push(ByDeadline, h, x), h + [x], timer);
    CountConcat(h, [x], timer);
    CountOne(x, timer);
  }

  /** Taking one element out, wherever the others end up. */
  lemma CountWithout(g: seq<Schedule>, h: seq<Schedule>, k: nat, timer: Runnable)
    requires k < |h| && multiset(g) == multiset(h) - multiset{h[k]}
    ensures Count(h, timer) == Count(g, timer) + if h[k].toRun == timer then 1 else 0
  {
    assert h[k] in multiset(h);
    CountOfElements(h, g + [h[k]], timer);
    CountConcat(g, [h[k]], timer);
    CountOne(h[k], timer);
  }

  lemma CountPop(h: seq<Schedule>, timer: Runnable)
    requires h != []
    ensures Count(h, timer) == Count(Pop(ByDeadline, h), timer) + if h[0].toRun == timer then 1 else 0
  {
    PopElements(ByDeadline, h);
    CountWithout(Pop(ByDeadline, h), h, 0, timer);
  }

  /** In any array a single removal takes one entry, which is of the timer or not. */
  lemma CountCancel(h: seq<Schedule>, runner: Runnable, timer: Runnable, below: Schedule)
    ensures var k := Find(h, SameRunner(runner));
            Count(h, timer) == Count(RemoveFirst(ByDeadline, h, SameRunner(runner), below), timer) +
              if k < |h| && Taken(ByDeadline, h, k).toRun == timer then 1 else 0
  {
    var k := Find(h, SameRunner(runner));
    if k < |h| {
      RemoveKeepsElements(ByDeadline, h, k, below);
      var taken := if LightLast(ByDeadline, h, k) then Parent(k) else k;
      CountWithout(RemoveAt(ByDeadline, h, k, below), h, taken, timer);
    }
  }

  /** Of a timer that is in the array at most once a cancel leaves none if and only if it takes the
      entry it finds. */
  lemma CancelClears(h: seq<Schedule>, timer: Runnable, below: Schedule)
    requires Count(h, timer) <= 1
    ensures Count(RemoveFirst(ByDeadline, h, SameRunner(timer), below), timer) == 0 <==> TakesFound(h, timer)
  {
    CountCancel(h, timer, timer, below);
    CountZero(h, timer);
    var k := Find(h, SameRunner(timer));
    if k < |h| && LightLast(ByDeadline, h, k) {
      assert !SameRunner(timer)(h[Parent(k)]);
    }
    assert k == |h| ==> forall i :: 0 <= i < |h| ==> !SameRunner(timer)(h[i]);
  }

  // ---------- the discipline of the requests ----------

  /** With u entries of the timer in the heap, serving these requests never makes it two. */
  predicate Safe(u: nat, rs: seq<Request>, timer: Runnable)
    decreases |rs|
  {
    u <= 1 && (rs == [] ||
      match rs[0]
      case CancelRequest(r) => Safe(if r == timer then 0 else u, rs[1..], timer)
      case ScheduleRequest(r, _) => if r == timer then u == 0 && Safe(1, rs[1..], timer) else Safe(u, rs[1..], timer)
      case _ => Safe(u, rs[1..], timer))
  }

  /** How many there will be when all requests are served. */
  function Final(u: nat, rs: seq<Request>, timer: Runnable): nat
    decreases |rs|
  {
    if rs == [] then u
    else
      match rs[0]
      case CancelRequest(r) => Final(if r == timer then 0 else u, rs[1..], timer)
      case ScheduleRequest(r, _) => Final(if r == timer then u + 1 else u, rs[1..], timer)
      case _ => Final(u, rs[1..], timer)
  }

  lemma {:induction false} SafeSnoc(u: nat, rs: seq<Request>, r: Request, timer: Runnable)
    requires Safe(u, rs, timer)
    requires r.ScheduleRequest? && r.toRun == timer ==> Final(u, rs, timer) == 0
    ensures Safe(u, rs + [r], timer)
    decreases |rs|
  {
    if rs == [] {
      assert rs + [r] == [r] && [r][1..] == [];
    } else {
      assert (rs + [r])[0] == rs[0] && (rs + [r])[1..] == rs[1..] + [r];
      match rs[0]
      case CancelRequest(q) => SafeSnoc(if q == timer then 0 else u, rs[1..], r, timer);
      case ScheduleRequest(q, _) => SafeSnoc(if q == timer then 1 else u, rs[1..], r, timer);
      case _ => SafeSnoc(u, rs[1..], r, timer);
    }
  }

  lemma {:induction false} FinalSnoc(u: nat, rs: seq<Request>, r: Request, timer: Runnable)
    ensures Final(u, rs + [r], timer) ==
      if r == CancelRequest(timer) then 0
      else Final(u, rs, timer) + if r.ScheduleRequest? && r.toRun == timer then 1 else 0
    decreases |rs|
  {
    if rs == [] {
      assert rs + [r] == [r] && [r][1..] == [];
    } else {
      assert (rs + [r])[0] == rs[0] && (rs + [r])[1..] == rs[1..] + [r];
      match rs[0]
      case CancelRequest(q) => FinalSnoc(if q == timer then 0 else u, rs[1..], r, timer);
      case ScheduleRequest(q, _) => FinalSnoc(if q == timer then u + 1 else u, rs[1..], r, timer);
      case _ => FinalSnoc(u, rs[1..], r, timer);
    }
  }

  /** Running the timer in between only helps. */
  lemma {:induction false} SafeFewer(rs: seq<Request>, timer: Runnable)
    requires Safe(1, rs, timer)
    ensures Safe(0, rs, timer) && Final(0, rs, timer) <= Final(1, rs, timer)
    decreases |rs|
  {
    if rs != [] && !(rs[0].CancelRequest? && rs[0].runner == timer) {
      SafeFewer(rs[1..], timer);
    }
  }

  /** At most one entry now, at most one whatever is served next, and none left before a schedule. */
  ghost predicate OneTimer(s: System, timer: Runnable) {
    && |s.callers| <= 1
    && Safe(Count(s.heap, timer), s.requests, timer)
    && (At(s, 0, Cancelled) || At(s, 0, Armed) ==> Final(Count(s.heap, timer), s.requests, timer) == 0)
  }

  lemma CancelKeepsOneTimer(s: System, r: Runnable, now: int, below: Schedule, timer: Runnable)
    requires s.requests != [] && s.requests[0] == CancelRequest(r)
    requires var a := ServeOne(now, below); OneTimer(s, timer) && Enabled(s, a, timer) && Regular(s, a, timer)
    ensures OneTimer(Next(s, ServeOne(now, below), timer), timer)
  {
    CountCancel(s.heap, r, timer, below);
    if r == timer {
      CancelClears(s.heap, timer, below);
    } else if Count(s.heap, timer) == 1 {
      SafeFewer(s.requests[1..], timer);
    }
  }

  lemma ServeKeepsOneTimer(s: System, now: int, below: Schedule, timer: Runnable)
    requires var a := ServeOne(now, below); OneTimer(s, timer) && Enabled(s, a, timer) && Regular(s, a, timer)
    ensures OneTimer(Next(s, ServeOne(now, below), timer), timer)
  {
    match s.requests[0]
    case CancelRequest(r) => CancelKeepsOneTimer(s, r, now, below, timer);
    case ScheduleRequest(r, delay) => CountPush(s.heap, Schedule(r, delay + now), timer);
    case _ =>
  }

  lemma SendKeepsOneTimer(u: nat, rs: seq<Request>, r: Request, timer: Runnable)
    requires Safe(u, rs, timer)
    requires r.ScheduleRequest? && r.toRun == timer ==> Final(u, rs, timer) == 0
    ensures Safe(u, rs + [r], timer)
    ensures Final(u, rs + [r], timer) == (if r == CancelRequest(timer) then 0
      else Final(u, rs, timer) + if r.ScheduleRequest? && r.toRun == timer then 1 else 0)
  {
    SafeSnoc(u, rs, r, timer);
    FinalSnoc(u, rs, r, timer);
  }

  lemma StepKeepsOneTimer(s: System, a: Step, timer: Runnable)
    requires OneTimer(s, timer) && Enabled(s, a, timer) && Regular(s, a, timer)
    ensures OneTimer(Next(s, a, timer), timer)
  {
    var u := Count(s.heap, timer);
    match a
    case ClearCancel => SendKeepsOneTimer(u, s.requests, CancelRequest(timer), timer);
    case TimeoutCancel(_) => SendKeepsOneTimer(u, s.requests, CancelRequest(timer), timer);
    case TimeoutSchedule(_, delay) => SendKeepsOneTimer(u, s.requests, ScheduleRequest(timer, delay), timer);
    case OtherThread(c) => SendKeepsOneTimer(u, s.requests, RequestOf(c), timer);
    case ServeOne(now, below) => ServeKeepsOneTimer(s, now, below, timer);
    case PopFirst =>
      CountPop(s.heap, timer);
      if u == 1 { SafeFewer(s.requests, timer); }
    case _ =>
  }

  lemma {:induction false} RunKeepsOneTimer(s: System, run: seq<Step>, timer: Runnable)
    requires OneTimer(s, timer) && AllEnabled(s, run, timer) && AllRegular(s, run, timer)
    ensures OneTimer(RunAll(s, run, timer), timer)
    decreases |run|
  {
    if run != [] {
      StepKeepsOneTimer(s, run[0], timer);
      RunKeepsOneTimer(Next(s, run[0], timer), run[1..], timer);
    }
  }

  /** At the start and after every step the heap holds at most one entry of the timer, and a cancel
      request that is served leaves none. */
  ghost predicate AlwaysCleared(s: System, run: seq<Step>, timer: Runnable)
    requires AllEnabled(s, run, timer)
    decreases |run|
  {
    && Count(s.heap, timer) <= 1
    && (run == [] ||
        var t := Next(s, run[0], timer);
        && (run[0].ServeOne? && s.requests[0] == CancelRequest(timer) ==> Count(t.heap, timer) == 0)
        && AlwaysCleared(t, run[1..], timer))
  }

  lemma {:induction false} ClearedIffRegular(s: System, run: seq<Step>, timer: Runnable)
    requires OneTimer(s, timer) && AllEnabled(s, run, timer)
    ensures AlwaysCleared(s, run, timer) <==> AllRegular(s, run, timer)
    decreases |run|
  {
    if run != [] {
      var a := run[0];
      if a.ServeOne? && s.requests[0] == CancelRequest(timer) {
        CancelClears(s.heap, timer, a.below);
      }
      if Regular(s, a, timer) {
        StepKeepsOneTimer(s, a, timer);
        ClearedIffRegular(Next(s, a, timer), run[1..], timer);
      }
    }
  }

  /** With one caller, over every interleaving: never two entries of the timer, and none behind a served
      cancel, if and only if every served cancel of the timer takes the entry it finds. */
  lemma CancelClearsTimer(run: seq<Step>, timer: Runnable)
    requires AllEnabled(Start(1), run, timer)
    ensures AlwaysCleared(Start(1), run, timer) <==> AllRegular(Start(1), run, timer)
  {
    ClearedIffRegular(Start(1), run, timer);
  }

  // ---------- a heap in order is enough ----------

  lemma HeapTakesFound(heap: seq<Schedule>, r: Runnable)
    requires Heap(ByDeadline, heap)
    ensures TakesFound(heap, r)
  {
  }

  /** No cancel leaves the root of the heap unrepaired. */
  ghost predicate RootsRepaired(s: System, run: seq<Step>, timer: Runnable)
    requires AllEnabled(s, run, timer)
    decreases |run|
  {
    run == [] ||
    ((run[0].ServeOne? ==> RequestRepaired(s.heap, s.requests[0], run[0].below)) &&
     RootsRepaired(Next(s, run[0], timer), run[1..], timer))
  }

  lemma StepKeepsOrder(s: System, a: Step, timer: Runnable)
    requires Heap(ByDeadline, s.heap) && Enabled(s, a, timer)
    requires a.ServeOne? ==> RequestRepaired(s.heap, s.requests[0], a.below)
    ensures Heap(ByDeadline, Next(s, a, timer).heap)
  {
    match a
    case ServeOne(now, below) =>
      match s.requests[0] {
        case ScheduleRequest(toRun, delay) => PushAddsOne(s.heap, Schedule(toRun, delay + now));
        case CancelRequest(runner) =>
          var k := Find(s.heap, SameRunner(runner));
          if k < |s.heap| {
            RemoveTakesOne(s.heap, k, below);
          }
        case _ =>
      }
    case PopFirst => PopTakesOne(s.heap);
    case _ =>
  }

  /** As long as every root is repaired, every cancel takes the entry it finds. */
  lemma {:induction false} RepairedIsRegular(s: System, run: seq<Step>, timer: Runnable)
    requires Heap(ByDeadline, s.heap) && AllEnabled(s, run, timer) && RootsRepaired(s, run, timer)
    ensures AllRegular(s, run, timer)
    decreases |run|
  {
    if run != [] {
      HeapTakesFound(s.heap, timer);
      StepKeepsOrder(s, run[0], timer);
      RepairedIsRegular(Next(s, run[0], timer), run[1..], timer);
    }
  }

  // ---------- several callers ----------

  /** Some word in front of the array. */
  const FRONT := Schedule(0, 0)

  /** No entry into schedule_timeout. */
  predicate NoEntry(run: seq<Step>) {
    forall i :: 0 <= i < |run| ==> !run[i].TimeoutCancel?
  }

  lemma Before(s: System, a: Step, rest: seq<Step>, timer: Runnable) returns (run: seq<Step>)
    requires Enabled(s, a, timer) && AllEnabled(Next(s, a, timer), rest, timer)
    ensures AllEnabled(s, run, timer) && RunAll(s, run, timer) == RunAll(Next(s, a, timer), rest, timer)
    ensures AllRegular(s, run, timer) <==> Regular(s, a, timer) && AllRegular(Next(s, a, timer), rest, timer)
    ensures NoEntry(rest) && !a.TimeoutCancel? ==> NoEntry(run)
  {
    run := [a] + rest;
    assert run[1..] == rest;
  }

  /** Serving cancel, cancel, schedule, schedule leaves two entries. */
  lemma FourServed(s: System, timer: Runnable, d: int) returns (run: seq<Step>)
    requires s.heap == [] && s.turn == Between
    requires var cancel, sched := CancelRequest(timer), ScheduleRequest(timer, d);
             s.requests == [cancel, cancel, sched, sched]
    ensures AllEnabled(s, run, timer) && AllRegular(s, run, timer) && Count(RunAll(s, run, timer).heap, timer) == 2
  {
    var cancel, sched, serve := CancelRequest(timer), ScheduleRequest(timer, d), ServeOne(0, FRONT);
    var entry := Schedule(timer, d);
    PushOnEmpty(entry);
    CountPush([], entry, timer);
    CountPush([entry], entry, timer);
    var s1 := s.(requests := [cancel, sched, sched]);
    var s2 := s.(requests := [sched, sched]);
    var s3 := s.(requests := [sched], heap := [entry]);
    var s4 := s.(requests := [], heap := Push(ByDeadline, [entry], entry));
    assert s1 == Next(s, serve, timer);
    assert s2 == Next(s1, serve, timer);
    assert s3 == Next(s2, serve, timer);
    assert s4 == Next(s3, serve, timer);
    run := Before(s3, serve, [], timer);
    run := Before(s2, serve, run, timer);
    run := Before(s1, serve, run, timer);
    run := Before(s, serve, run, timer);
  }

  /** Two callers at once (the lock is commented out): the requests arrive as cancel, cancel,
      schedule, schedule. */
  lemma TwoCallersTwoEntries(n: nat, timer: Runnable, d: int) returns (run: seq<Step>)
    requires n >= 2
    ensures AllEnabled(Start(n), run, timer) && AllRegular(Start(n), run, timer)
    ensures Count(RunAll(Start(n), run, timer).heap, timer) == 2
  {
    var cancel, sched := CancelRequest(timer), ScheduleRequest(timer, d);
    var out := Start(n).callers;
    var c1 := out[0 := Cancelled];
    var c2 := c1[1 := Cancelled];
    var c3 := c2[0 := Armed];
    var c4 := c3[1 := Armed];
    var c5 := c4[0 := Outside];
    var s0 := Start(n);
    var s1 := System([], [cancel], c1, false, Between);
    var s2 := System([], [cancel, cancel], c2, false, Between);
    var s3 := System([], [cancel, cancel], c3, true, Between);
    var s4 := System([], [cancel, cancel], c4, true, Between);
    var s5 := System([], [cancel, cancel, sched], c5, true, Between);
    var s6 := System([], [cancel, cancel, sched, sched], c5[1 := Outside], true, Between);
    assert s1 == Next(s0, TimeoutCancel(0), timer);
    assert s2 == Next(s1, TimeoutCancel(1), timer);
    assert s5 == Next(s4, TimeoutSchedule(0, d), timer);
    assert s6 == Next(s5, TimeoutSchedule(1, d), timer);
    run := FourServed(s6, timer, d);
    run := Before(s5, TimeoutSchedule(1, d), run, timer);
    run := Before(s4, TimeoutSchedule(0, d), run, timer);
    run := Before(s3, TimeoutArm(1), run, timer);
    run := Before(s2, TimeoutArm(0), run, timer);
    run := Before(s1, TimeoutCancel(1), run, timer);
    run := Before(s0, TimeoutCancel(0), run, timer);
  }

  /** The heap never holds two entries of the timer exactly when there is at most one caller. */
  lemma SafeIffOneCaller(n: nat, timer: Runnable)
    ensures n <= 1 <==>
      forall run :: AllEnabled(Start(n), run, timer) && AllRegular(Start(n), run, timer) ==>
        Count(RunAll(Start(n), run, timer).heap, timer) <= 1
  {
    if n >= 2 {
      var run := TwoCallersTwoEntries(n, timer, 0);
    } else {
      forall run | AllEnabled(Start(n), run, timer) && AllRegular(Start(n), run, timer)
        ensures Count(RunAll(Start(n), run, timer).heap, timer) <= 1
      {
        RunKeepsOneTimer(Start(n), run, timer);
      }
    }
  }

  // ---------- a cancel that takes another entry ----------

  const DEADLINES := [10, 20, 30]

  /** The entries of three runnables, the second of which is the timer. */
  function Entry(timer: Runnable, i: nat): Schedule
    requires i < 3
  {
    Schedule(if i == 1 then timer else timer + 1 + i, DEADLINES[i])
  }

  function Scheduling(timer: Runnable, i: nat): Request
    requires i < 3
  {
    ScheduleRequest(Entry(timer, i).toRun, DEADLINES[i])
  }

  /** In an array out of order, the timer stays and the other entry is gone. */
  lemma OtherTaken(timer: Runnable) returns (run: seq<Step>)
    ensures var s := System([Entry(timer, 2), Entry(timer, 1)], [CancelRequest(timer)], [Cancelled], true, Between);
            && AllEnabled(s, run, timer) && !AllRegular(s, run, timer)
            && RunAll(s, run, timer).heap == [Entry(timer, 1)] && RunAll(s, run, timer).requests == []
  {
    var h := [Entry(timer, 2), Entry(timer, 1)];
    var s := System(h, [CancelRequest(timer)], [Cancelled], true, Between);
    assert Find(h, SameRunner(timer)) == 1 by {
      assert !SameRunner(timer)(h[0]) && h[1..][0] == h[1];
    }
    assert LightLast(ByDeadline, h, 1);
    var g := Swap(h, 1, 0);
    assert SiftUp(ByDeadline, h, 1) == SiftUp(ByDeadline, g, 0) == g == [Entry(timer, 1), Entry(timer, 2)];
    assert g[..1] == [Entry(timer, 1)];
    run := Before(s, ServeOne(0, LATE), [], timer);
  }

  /** The array gets out of order by a cancel of its root. */
  lemma RootTaken(timer: Runnable) returns (run: seq<Step>)
    ensures var s := System([Entry(timer, 0), Entry(timer, 1), Entry(timer, 2)],
                            [CancelRequest(Entry(timer, 0).toRun), CancelRequest(timer)], [Cancelled], true, Between);
            && AllEnabled(s, run, timer) && !AllRegular(s, run, timer)
            && RunAll(s, run, timer).heap == [Entry(timer, 1)] && RunAll(s, run, timer).requests == []
  {
    var h := [Entry(timer, 0), Entry(timer, 1), Entry(timer, 2)];
    var cancels := [CancelRequest(Entry(timer, 0).toRun), CancelRequest(timer)];
    var s := System(h, cancels, [Cancelled], true, Between);
    var r := Entry(timer, 0).toRun;
    assert Find(h, SameRunner(r)) == 0;
    assert h[..2][0 := h[2]] == [Entry(timer, 2), Entry(timer, 1)];
    assert RemoveFirst(ByDeadline, h, SameRunner(r), LATE) == [Entry(timer, 2), Entry(timer, 1)];
    assert cancels[1..] == [CancelRequest(timer)];
    run := OtherTaken(timer);
    run := Before(s, ServeOne(0, LATE), run, timer);
  }

  lemma ServeScheduling(s: System, timer: Runnable, i: nat)
    requires i < 3 && s.turn == Between && s.requests != [] && s.requests[0] == Scheduling(timer, i)
    requires forall y :: y in s.heap ==> y.when <= DEADLINES[i]
    ensures Next(s, ServeOne(0, LATE), timer) == s.(heap := s.heap + [Entry(timer, i)], requests := s.requests[1..])
  {
    PushLatest(s.heap, Entry(timer, i));
  }

  /** Before that, the timer and the third entry are scheduled behind the first. */
  lemma TwoServed(timer: Runnable, rest: seq<Request>) returns (run: seq<Step>)
    requires rest == [CancelRequest(Entry(timer, 0).toRun), CancelRequest(timer)]
    ensures var two := [Scheduling(timer, 1), Scheduling(timer, 2)];
            var s := System([Entry(timer, 0)], two + rest, [Cancelled], true, Between);
            && AllEnabled(s, run, timer) && !AllRegular(s, run, timer)
            && RunAll(s, run, timer).heap == [Entry(timer, 1)] && RunAll(s, run, timer).requests == []
  {
    var e, f, g := Entry(timer, 0), Entry(timer, 1), Entry(timer, 2);
    var s1 := System([e], [Scheduling(timer, 1), Scheduling(timer, 2)] + rest, [Cancelled], true, Between);
    var s2 := System([e, f], [Scheduling(timer, 2)] + rest, [Cancelled], true, Between);
    assert s1.requests[1..] == s2.requests && s2.requests[1..] == rest;
    assert [e] + [f] == [e, f] && [e, f] + [g] == [e, f, g];
    ServeScheduling(s1, timer, 1);
    ServeScheduling(s2, timer, 2);
    run := RootTaken(timer);
    run := Before(s2, ServeOne(0, LATE), run, timer);
    run := Before(s1, ServeOne(0, LATE), run, timer);
  }

  /** A cancel of a timer that is not there. */
  lemma ServeIdleCancel(s: System, timer: Runnable)
    requires s.turn == Between && s.requests != [] && s.requests[0] == CancelRequest(timer)
    requires Count(s.heap, timer) == 0
    ensures Regular(s, ServeOne(0, LATE), timer)
    ensures Next(s, ServeOne(0, LATE), timer) == s.(requests := s.requests[1..])
  {
    CountZero(s.heap, timer);
  }

  /** Before that, the first entry, and the cancel of a timer that is not there yet. */
  lemma FourRequestsServed(timer: Runnable, rest: seq<Request>) returns (run: seq<Step>)
    requires rest == [CancelRequest(Entry(timer, 0).toRun), CancelRequest(timer)]
    ensures var four := [Scheduling(timer, 0), CancelRequest(timer), Scheduling(timer, 1), Scheduling(timer, 2)];
            var s := System([], four + rest, [Cancelled], true, Between);
            && AllEnabled(s, run, timer) && !AllRegular(s, run, timer)
            && RunAll(s, run, timer).heap == [Entry(timer, 1)] && RunAll(s, run, timer).requests == []
  {
    var e, cancel := Entry(timer, 0), CancelRequest(timer);
    var later := [Scheduling(timer, 1), Scheduling(timer, 2)] + rest;
    var s1 := System([], [Scheduling(timer, 0), cancel] + later, [Cancelled], true, Between);
    var s2 := System([e], [cancel] + later, [Cancelled], true, Between);
    var s3 := System([e], later, [Cancelled], true, Between);
    assert s1.requests[1..] == s2.requests && s2.requests[1..] == later && [] + [e] == [e];
    ServeScheduling(s1, timer, 0);
    CountOne(e, timer);
    ServeIdleCancel(s2, timer);
    run := TwoServed(timer, rest);
    run := Before(s2, ServeOne(0, LATE), run, timer);
    run := Before(s1, ServeOne(0, LATE), run, timer);
    assert s1.requests == [Scheduling(timer, 0), cancel, Scheduling(timer, 1), Scheduling(timer, 2)] + rest;
  }

  /** A run with one caller in which the served cancel of the timer leaves its entry in the heap. */
  lemma NotCleared(timer: Runnable) returns (run: seq<Step>)
    ensures AllEnabled(Start(1), run, timer) && !AlwaysCleared(Start(1), run, timer)
    ensures RunAll(Start(1), run, timer).heap == [Entry(timer, 1)] && RunAll(Start(1), run, timer).requests == []
  {
    var first, third := CallSchedule(timer + 1, 10), CallSchedule(timer + 3, 30);
    var a, b, c, d := Scheduling(timer, 0), CancelRequest(timer), Scheduling(timer, 1), Scheduling(timer, 2);
    var e := CancelRequest(timer + 1);
    var s0 := Start(1);
    var s1 := System([], [a], [Outside], false, Between);
    var s2 := System([], [a, b], [Cancelled], false, Between);
    var s3 := System([], [a, b], [Armed], true, Between);
    var s4 := System([], [a, b, c], [Outside], true, Between);
    var s5 := System([], [a, b, c, d], [Outside], true, Between);
    var s6 := System([], [a, b, c, d, e], [Outside], true, Between);
    var s7 := System([], [a, b, c, d] + [e, b], [Cancelled], true, Between);
    assert s0.callers == [Outside];
    assert s1 == Next(s0, OtherThread(first), timer) && s2 == Next(s1, TimeoutCancel(0), timer);
    assert s3 == Next(s2, TimeoutArm(0), timer) && s4 == Next(s3, TimeoutSchedule(0, 20), timer);
    assert s5 == Next(s4, OtherThread(third), timer) && s6 == Next(s5, OtherThread(CallCancel(timer + 1)), timer);
    assert s7 == Next(s6, TimeoutCancel(0), timer);
    run := FourRequestsServed(timer, [e, b]);
    run := Before(s6, TimeoutCancel(0), run, timer);
    run := Before(s5, OtherThread(CallCancel(timer + 1)), run, timer);
    run := Before(s4, OtherThread(third), run, timer);
    run := Before(s3, TimeoutSchedule(0, 20), run, timer);
    run := Before(s2, TimeoutArm(0), run, timer);
    run := Before(s1, TimeoutCancel(0), run, timer);
    run := Before(s0, OtherThread(first), run, timer);
    CancelClearsTimer(run, timer);
  }

  // ---------- the engaged flag ----------

  /** The entries of the timer that are still to run: an entry being run is on its way out. */
  function Left(s: System, timer: Runnable): nat {
    if s.turn == Running && s.heap != [] then Count(s.heap[1..], timer) else Count(s.heap, timer)
  }

  /** The schedule requests of the timer that wait to be served. */
  function Queued(rs: seq<Request>, timer: Runnable): nat
    decreases |rs|
  {
    if rs == [] then 0
    else (if rs[0].ScheduleRequest? && rs[0].toRun == timer then 1 else 0) + Queued(rs[1..], timer)
  }

  lemma {:induction false} QueuedSnoc(rs: seq<Request>, r: Request, timer: Runnable)
    ensures Queued(rs + [r], timer) == Queued(rs, timer) + if r.ScheduleRequest? && r.toRun == timer then 1 else 0
    decreases |rs|
  {
    if rs == [] {
      assert rs + [r] == [r] && [r][1..] == [];
    } else {
      assert (rs + [r])[0] == rs[0] && (rs + [r])[1..] == rs[1..] + [r];
      QueuedSnoc(rs[1..], r, timer);
    }
  }

  lemma {:induction false} FinalBound(u: nat, rs: seq<Request>, timer: Runnable)
    ensures Final(u, rs, timer) <= u + Queued(rs, timer)
    decreases |rs|
  {
    if rs != [] {
      match rs[0]
      case CancelRequest(q) => FinalBound(if q == timer then 0 else u, rs[1..], timer);
      case ScheduleRequest(q, _) => FinalBound(if q == timer then u + 1 else u, rs[1..], timer);
      case _ => FinalBound(u, rs[1..], timer);
    }
  }

  /** An entry of the timer will be there when the requests of now are served, each cancel taking the
      entry it is meant for. */
  predicate Pending(s: System, timer: Runnable) {
    Final(Left(s, timer), s.requests, timer) > 0
  }

  /** clearTimeout would overlook a pending timer. */
  predicate Misses(s: System, timer: Runnable) {
    s.callers == [Outside] && Pending(s, timer) && !s.engaged
  }

  /** A run is late once the timer runs out after a new one was armed, up to the next arming. */
  datatype Watched = Watched(sys: System, late: bool)

  predicate RunsOutLate(s: System, timer: Runnable)
    requires s.heap != []
  {
    s.heap[0].toRun == timer && (s.callers == [Armed] || Queued(s.requests, timer) > 0)
  }

  ghost function WatchNext(w: Watched, a: Step, timer: Runnable): Watched
    requires Enabled(w.sys, a, timer)
  {
    Watched(Next(w.sys, a, timer),
            match a
            case RunFirst => w.late || RunsOutLate(w.sys, timer)
            case TimeoutArm(_) => false
            case _ => w.late)
  }

  ghost function WatchAll(w: Watched, run: seq<Step>, timer: Runnable): Watched
    requires AllEnabled(w.sys, run, timer)
    decreases |run|
  {
    if run == [] then w else WatchAll(WatchNext(w, run[0], timer), run[1..], timer)
  }

  /** While a timer is armed or pending, the flag is down exactly in a late run. */
  ghost predicate Precise(w: Watched, timer: Runnable) {
    && OneTimer(w.sys, timer) && |w.sys.callers| == 1
    && (w.sys.callers[0] == Armed || Pending(w.sys, timer) ==> (w.sys.engaged <==> !w.late))
  }

  /** What the steps of the scheduler's thread do to the entries left. */
  lemma LeftOfSteps(s: System, a: Step, timer: Runnable)
    requires Enabled(s, a, timer)
    ensures a.RunFirst? ==>
      Left(s, timer) == Left(Next(s, a, timer), timer) + if s.heap[0].toRun == timer then 1 else 0
    ensures a.PopFirst? ==> Left(Next(s, a, timer), timer) == Left(s, timer)
    ensures !a.RunFirst? && !a.PopFirst? && !a.ServeOne? ==> Left(Next(s, a, timer), timer) == Left(s, timer)
  {
    if a.PopFirst? {
      CountPop(s.heap, timer);
    }
  }

  lemma ServeKeepsPrecise(w: Watched, now: int, below: Schedule, timer: Runnable)
    requires var a := ServeOne(now, below);
             Precise(w, timer) && Enabled(w.sys, a, timer) && Regular(w.sys, a, timer)
    ensures Precise(WatchNext(w, ServeOne(now, below), timer), timer)
  {
    var s := w.sys;
    StepKeepsOneTimer(s, ServeOne(now, below), timer);
    match s.requests[0]
    case CancelRequest(r) =>
      CountCancel(s.heap, r, timer, below);
      if r == timer {
        CancelClears(s.heap, timer, below);
      } else if Count(s.heap, timer) == 1 {
        SafeFewer(s.requests[1..], timer);
      }
    case ScheduleRequest(r, delay) => CountPush(s.heap, Schedule(r, delay + now), timer);
    case _ =>
  }

  lemma StepKeepsPrecise(w: Watched, a: Step, timer: Runnable)
    requires Precise(w, timer) && Enabled(w.sys, a, timer) && Regular(w.sys, a, timer)
    ensures Precise(WatchNext(w, a, timer), timer)
  {
    var s, u := w.sys, Left(w.sys, timer);
    StepKeepsOneTimer(s, a, timer);
    LeftOfSteps(s, a, timer);
    match a
    case ClearCancel => FinalSnoc(u, s.requests, CancelRequest(timer), timer);
    case TimeoutCancel(_) => FinalSnoc(u, s.requests, CancelRequest(timer), timer);
    case OtherThread(c) => FinalSnoc(u, s.requests, RequestOf(c), timer);
    case ServeOne(now, below) => ServeKeepsPrecise(w, now, below, timer);
    case RunFirst => FinalBound(Left(Next(s, a, timer), timer), s.requests, timer);
    case _ =>
  }

  lemma {:induction false} RunKeepsPrecise(w: Watched, run: seq<Step>, timer: Runnable)
    requires Precise(w, timer) && AllEnabled(w.sys, run, timer) && AllRegular(w.sys, run, timer)
    ensures Precise(WatchAll(w, run, timer), timer)
    ensures WatchAll(w, run, timer).sys == RunAll(w.sys, run, timer)
    decreases |run|
  {
    if run != [] {
      StepKeepsPrecise(w, run[0], timer);
      RunKeepsPrecise(WatchNext(w, run[0], timer), run[1..], timer);
    }
  }

  /** Over every run with one caller: clearTimeout overlooks a pending timer exactly when the last
      one ran out late. */
  lemma FlagMissesIffLate(run: seq<Step>, timer: Runnable)
    requires AllEnabled(Start(1), run, timer) && AllRegular(Start(1), run, timer)
    ensures var w := WatchAll(Watched(Start(1), false), run, timer);
            && w.sys == RunAll(Start(1), run, timer)
            && (Misses(w.sys, timer) <==> w.sys.callers == [Outside] && Pending(w.sys, timer) && w.late)
  {
    assert Final(0, [], timer) == 0;
    RunKeepsPrecise(Watched(Start(1), false), run, timer);
  }

  // ---------- what clearTimeout and schedule_timeout do ----------

  /** Looking at the flag leads to a cancel exactly if it is up, and changes nothing else. */
  lemma LookDecides(s: System, timer: Runnable)
    requires s.callers == [Outside]
    ensures var t := Next(s, LookAtFlag, timer);
            && t.callers == [if s.engaged then Clearing else Outside]
            && t.heap == s.heap && t.requests == s.requests && t.engaged == s.engaged && t.turn == s.turn
  {
  }

  /** Steps of other threads and of the scheduler. */
  predicate OthersOnly(run: seq<Step>) {
    forall i :: 0 <= i < |run| ==>
      match run[i]
      case LookAtFlag => false
      case ClearCancel => false
      case TimeoutCancel(_) => false
      case TimeoutArm(_) => false
      case TimeoutSchedule(_, _) => false
      case _ => true
  }

  lemma {:induction false} OthersKeepCallers(s: System, run: seq<Step>, timer: Runnable)
    requires AllEnabled(s, run, timer) && OthersOnly(run)
    ensures RunAll(s, run, timer).callers == s.callers
    decreases |run|
  {
    if run != [] {
      OthersKeepCallers(Next(s, run[0], timer), run[1..], timer);
    }
  }

  /** With the flag up, clearTimeout queues a cancel behind whatever other threads and the scheduler
      have done since it looked, and then no entry of the timer is pending. */
  lemma ClearTimeoutCancels(s: System, others: seq<Step>, timer: Runnable)
    requires s.callers == [Outside] && s.engaged
    requires AllEnabled(Next(s, LookAtFlag, timer), others, timer) && OthersOnly(others)
    ensures var t := RunAll(Next(s, LookAtFlag, timer), others, timer);
            MayPush(t) ==>
              && Enabled(t, ClearCancel, timer)
              && var u := Next(t, ClearCancel, timer);
                 && u.requests == t.requests + [CancelRequest(timer)] && u.callers == [Outside]
                 && u.heap == t.heap && u.engaged == t.engaged && u.turn == t.turn
                 && !Pending(u, timer)
  {
    var looked := Next(s, LookAtFlag, timer);
    OthersKeepCallers(looked, others, timer);
    var t := RunAll(looked, others, timer);
    FinalSnoc(Left(t, timer), t.requests, CancelRequest(timer), timer);
  }

  lemma StepKeepsCleared(s: System, a: Step, timer: Runnable)
    requires OneTimer(s, timer) && |s.callers| == 1 && !Pending(s, timer)
    requires Enabled(s, a, timer) && Regular(s, a, timer) && !a.TimeoutSchedule?
    ensures !Pending(Next(s, a, timer), timer)
  {
    var u := Left(s, timer);
    LeftOfSteps(s, a, timer);
    match a
    case ClearCancel => FinalSnoc(u, s.requests, CancelRequest(timer), timer);
    case TimeoutCancel(_) => FinalSnoc(u, s.requests, CancelRequest(timer), timer);
    case OtherThread(c) => FinalSnoc(u, s.requests, RequestOf(c), timer);
    case ServeOne(now, below) => ServeKeepsCleared(s, now, below, timer);
    case RunFirst => if u == 1 { SafeFewer(s.requests, timer); }
    case _ =>
  }

  lemma ServeKeepsCleared(s: System, now: int, below: Schedule, timer: Runnable)
    requires var a := ServeOne(now, below);
             OneTimer(s, timer) && !Pending(s, timer) && Enabled(s, a, timer) && Regular(s, a, timer)
    ensures !Pending(Next(s, ServeOne(now, below), timer), timer)
  {
    match s.requests[0]
    case CancelRequest(r) =>
      CountCancel(s.heap, r, timer, below);
      if r == timer {
        CancelClears(s.heap, timer, below);
      } else if Count(s.heap, timer) == 1 {
        SafeFewer(s.requests[1..], timer);
      }
    case ScheduleRequest(r, delay) => CountPush(s.heap, Schedule(r, delay + now), timer);
    case _ =>
  }

  predicate NoScheduling(run: seq<Step>) {
    forall i :: 0 <= i < |run| ==> !run[i].TimeoutSchedule?
  }

  /** What has been cleared stays cleared: as long as nothing schedules the timer, no entry of it is
      left once the requests have been served. */
  lemma {:induction false} ClearedForGood(s: System, run: seq<Step>, timer: Runnable)
    requires OneTimer(s, timer) && |s.callers| == 1 && !Pending(s, timer)
    requires AllEnabled(s, run, timer) && AllRegular(s, run, timer) && NoScheduling(run)
    ensures var t := RunAll(s, run, timer); !Pending(t, timer) && (t.requests == [] ==> Left(t, timer) == 0)
    decreases |run|
  {
    if run != [] {
      StepKeepsOneTimer(s, run[0], timer);
      StepKeepsCleared(s, run[0], timer);
      ClearedForGood(Next(s, run[0], timer), run[1..], timer);
    }
  }

  /** schedule_timeout queues a cancel, puts the flag up and queues the scheduling, whatever other
      threads and the scheduler do in between; in the end an entry of the timer is pending. */
  lemma SetTimeoutSchedules(s: System, first: seq<Step>, second: seq<Step>, delay: int, timer: Runnable)
    requires s.callers == [Outside] && Enabled(s, TimeoutCancel(0), timer)
    requires AllEnabled(Next(s, TimeoutCancel(0), timer), first, timer) && OthersOnly(first)
    ensures var cancelled := Next(s, TimeoutCancel(0), timer);
            var t := RunAll(cancelled, first, timer);
            && cancelled.requests == s.requests + [CancelRequest(timer)] && !Pending(cancelled, timer)
            && cancelled.heap == s.heap && cancelled.engaged == s.engaged && cancelled.turn == s.turn
            && Enabled(t, TimeoutArm(0), timer)
            && var armed := Next(t, TimeoutArm(0), timer);
               && armed.engaged && armed.requests == t.requests && armed.heap == t.heap && armed.turn == t.turn
               && (AllEnabled(armed, second, timer) && OthersOnly(second) ==>
                   Scheduled(RunAll(armed, second, timer), delay, timer))
  {
    var cancelled := Next(s, TimeoutCancel(0), timer);
    FinalSnoc(Left(s, timer), s.requests, CancelRequest(timer), timer);
    OthersKeepCallers(cancelled, first, timer);
    var armed := Next(RunAll(cancelled, first, timer), TimeoutArm(0), timer);
    if AllEnabled(armed, second, timer) && OthersOnly(second) {
      OthersKeepCallers(armed, second, timer);
      var t := RunAll(armed, second, timer);
      FinalSnoc(Left(t, timer), t.requests, ScheduleRequest(timer, delay), timer);
    }
  }

  /** The last step of schedule_timeout is possible, and what it does. */
  ghost predicate Scheduled(t: System, delay: int, timer: Runnable) {
    MayPush(t) ==>
      && Enabled(t, TimeoutSchedule(0, delay), timer)
      && var u := Next(t, TimeoutSchedule(0, delay), timer);
         && u.requests == t.requests + [ScheduleRequest(timer, delay)] && u.callers == [Outside]
         && u.heap == t.heap && u.engaged == t.engaged && u.turn == t.turn
         && Pending(u, timer)
  }

  // ---------- when a caller can be sure ----------

  /** The scheduler waits for the timer's entry, or its time has come and it is about to be run. */
  predicate AboutToRun(s: System, timer: Runnable) {
    (s.turn == Waiting || s.turn == Decided) && s.heap != [] && s.heap[0].toRun == timer
  }

  /** Since an entry whose cancel is served: at most one entry or request of the timer, none before
      the scheduling, and the flag is up for it. */
  ghost predicate Clean(s: System, timer: Runnable) {
    && |s.callers| == 1
    && var n := Left(s, timer) + Queued(s.requests, timer);
       match s.callers[0]
       case Cancelled => n == 0
       case Armed => n == 0 && s.engaged
       case _ => n == 0 || (n == 1 && s.engaged)
  }

  lemma ServeKeepsClean(s: System, now: int, below: Schedule, timer: Runnable)
    requires Clean(s, timer) && Enabled(s, ServeOne(now, below), timer)
    ensures Clean(Next(s, ServeOne(now, below), timer), timer)
  {
    match s.requests[0]
    case CancelRequest(r) => CountCancel(s.heap, r, timer, below);
    case ScheduleRequest(r, delay) => CountPush(s.heap, Schedule(r, delay + now), timer);
    case _ =>
  }

  lemma StepKeepsClean(s: System, a: Step, timer: Runnable)
    requires Clean(s, timer) && Enabled(s, a, timer) && !a.TimeoutCancel?
    ensures Clean(Next(s, a, timer), timer)
  {
    LeftOfSteps(s, a, timer);
    match a
    case ClearCancel => QueuedSnoc(s.requests, CancelRequest(timer), timer);
    case TimeoutSchedule(_, delay) => QueuedSnoc(s.requests, ScheduleRequest(timer, delay), timer);
    case OtherThread(c) => QueuedSnoc(s.requests, RequestOf(c), timer);
    case ServeOne(now, below) => ServeKeepsClean(s, now, below, timer);
    case _ =>
  }

  /** Since an entry whose cancel still waits behind i requests: no entry of the timer is run before
      it, because the scheduler waits for a deadline only when no request is left. */
  ghost predicate Shielded(s: System, i: nat, timer: Runnable) {
    && OneTimer(s, timer) && |s.callers| == 1 && !AboutToRun(s, timer)
    && i < |s.requests| && s.requests[i] == CancelRequest(timer)
    && var n := Queued(s.requests[i + 1..], timer);
       match s.callers[0]
       case Cancelled => n == 0
       case Armed => n == 0 && s.engaged
       case _ => n == 1 && s.engaged
  }

  lemma ServeKeepsShielded(s: System, i: nat, now: int, below: Schedule, timer: Runnable)
    requires var a := ServeOne(now, below);
             Shielded(s, i, timer) && Enabled(s, a, timer) && Regular(s, a, timer)
    ensures var t := Next(s, ServeOne(now, below), timer);
            if i == 0 then Clean(t, timer) else Shielded(t, i - 1, timer)
  {
    ServeKeepsOneTimer(s, now, below, timer);
    if i == 0 {
      CancelClears(s.heap, timer, below);
    } else {
      assert s.requests[1..][i..] == s.requests[i + 1..];
    }
  }

  lemma SendKeepsShielded(s: System, i: nat, r: Request, timer: Runnable)
    requires i < |s.requests|
    ensures (s.requests + [r])[i] == s.requests[i]
    ensures Queued((s.requests + [r])[i + 1..], timer) ==
      Queued(s.requests[i + 1..], timer) + if r.ScheduleRequest? && r.toRun == timer then 1 else 0
  {
    assert (s.requests + [r])[i + 1..] == s.requests[i + 1..] + [r];
    QueuedSnoc(s.requests[i + 1..], r, timer);
  }

  lemma StepKeepsShielded(s: System, i: nat, a: Step, timer: Runnable)
    requires Shielded(s, i, timer) && Enabled(s, a, timer) && Regular(s, a, timer) && !a.TimeoutCancel?
    ensures var t := Next(s, a, timer);
            if !a.ServeOne? then Shielded(t, i, timer)
            else if i == 0 then Clean(t, timer) else Shielded(t, i - 1, timer)
  {
    StepKeepsOneTimer(s, a, timer);
    match a
    case ClearCancel => SendKeepsShielded(s, i, CancelRequest(timer), timer);
    case TimeoutSchedule(_, delay) => SendKeepsShielded(s, i, ScheduleRequest(timer, delay), timer);
    case OtherThread(c) => SendKeepsShielded(s, i, RequestOf(c), timer);
    case ServeOne(now, below) => ServeKeepsShielded(s, i, now, below, timer);
    case _ =>
  }

  lemma ShieldedIsNoMiss(s: System, i: nat, timer: Runnable)
    requires Shielded(s, i, timer)
    ensures !Misses(s, timer)
  {
  }

  /** Where an entry leads: behind its cancel, or past it. */
  ghost predicate Entered(s: System, i: nat, timer: Runnable) {
    Shielded(s, i, timer) || Clean(s, timer)
  }

  lemma StepKeepsEntered(s: System, i: nat, a: Step, timer: Runnable) returns (j: nat)
    requires Entered(s, i, timer) && Enabled(s, a, timer) && Regular(s, a, timer) && !a.TimeoutCancel?
    ensures Entered(Next(s, a, timer), j, timer)
  {
    if Shielded(s, i, timer) {
      StepKeepsShielded(s, i, a, timer);
      j := if a.ServeOne? && i > 0 then i - 1 else i;
    } else {
      StepKeepsClean(s, a, timer);
      j := i;
    }
  }

  lemma EnteredIsNoMiss(s: System, i: nat, timer: Runnable)
    requires Entered(s, i, timer)
    ensures !Misses(s, timer)
  {
    if Shielded(s, i, timer) {
      ShieldedIsNoMiss(s, i, timer);
    } else {
      FinalBound(Left(s, timer), s.requests, timer);
    }
  }

  lemma {:induction false} EnteredNeverMisses(s: System, i: nat, run: seq<Step>, timer: Runnable)
    requires Entered(s, i, timer) && AllEnabled(s, run, timer) && AllRegular(s, run, timer) && NoEntry(run)
    ensures !Misses(RunAll(s, run, timer), timer)
    decreases |run|
  {
    if run == [] {
      EnteredIsNoMiss(s, i, timer);
    } else {
      var j := StepKeepsEntered(s, i, run[0], timer);
      EnteredNeverMisses(Next(s, run[0], timer), j, run[1..], timer);
    }
  }

  lemma EntryShields(s: System, timer: Runnable)
    requires OneTimer(s, timer) && s.callers == [Outside] && Enabled(s, TimeoutCancel(0), timer)
    requires !AboutToRun(s, timer)
    ensures Shielded(Next(s, TimeoutCancel(0), timer), |s.requests|, timer)
  {
    StepKeepsOneTimer(s, TimeoutCancel(0), timer);
    assert (s.requests + [CancelRequest(timer)])[|s.requests| + 1..] == [];
  }

  /** The timer's entry, about to be run, is run between the arming and the scheduling. */
  lemma DecidedRun(s: System, timer: Runnable) returns (run: seq<Step>)
    requires s.callers == [Cancelled] && s.turn == Decided && AboutToRun(s, timer)
    ensures AllEnabled(s, run, timer) && AllRegular(s, run, timer)
    ensures NoEntry(run) && Misses(RunAll(s, run, timer), timer)
  {
    var armed := Next(s, TimeoutArm(0), timer);
    assert armed.callers == [Armed];
    var late := Next(armed, RunFirst, timer);
    FinalSnoc(Left(late, timer), late.requests, ScheduleRequest(timer, 0), timer);
    run := Before(late, TimeoutSchedule(0, 0), [], timer);
    run := Before(armed, RunFirst, run, timer);
    run := Before(s, TimeoutArm(0), run, timer);
  }

  lemma MissedAfterEntry(s: System, timer: Runnable) returns (run: seq<Step>)
    requires s.callers == [Outside] && Enabled(s, TimeoutCancel(0), timer) && AboutToRun(s, timer)
    ensures var entered := Next(s, TimeoutCancel(0), timer);
            AllEnabled(entered, run, timer) && AllRegular(entered, run, timer) &&
            NoEntry(run) && Misses(RunAll(entered, run, timer), timer)
  {
    var entered := Next(s, TimeoutCancel(0), timer);
    if s.turn == Waiting {
      var a := WaitEnds(s.heap[0].when);
      run := DecidedRun(Next(entered, a, timer), timer);
      run := Before(entered, a, run, timer);
    } else {
      run := DecidedRun(entered, timer);
    }
  }

  /** No run up to the next entry makes clearTimeout overlook the timer. */
  ghost predicate NeverMisses(entered: System, timer: Runnable) {
    forall run :: AllEnabled(entered, run, timer) && AllRegular(entered, run, timer) && NoEntry(run) ==>
      !Misses(RunAll(entered, run, timer), timer)
  }

  /** What decides, at the moment the cancel of schedule_timeout is queued: if and only if the
      scheduler is neither waiting for the timer's entry nor about to run it, no run up to the next
      entry makes clearTimeout overlook the timer. */
  lemma EntryDecides(before: seq<Step>, timer: Runnable)
    requires AllEnabled(Start(1), before, timer)
    ensures var s := RunAll(Start(1), before, timer);
            AllRegular(Start(1), before, timer) && s.callers == [Outside] && Enabled(s, TimeoutCancel(0), timer) ==>
              (!AboutToRun(s, timer) <==> NeverMisses(Next(s, TimeoutCancel(0), timer), timer))
  {
    var s := RunAll(Start(1), before, timer);
    if AllRegular(Start(1), before, timer) && s.callers == [Outside] && Enabled(s, TimeoutCancel(0), timer) {
      RunKeepsOneTimer(Start(1), before, timer);
      var entered := Next(s, TimeoutCancel(0), timer);
      if AboutToRun(s, timer) {
        var run := MissedAfterEntry(s, timer);
      } else {
        EntryShields(s, timer);
        forall run | AllEnabled(entered, run, timer) && AllRegular(entered, run, timer) && NoEntry(run)
          ensures !Misses(RunAll(entered, run, timer), timer)
        {
          EnteredNeverMisses(entered, |s.requests|, run, timer);
        }
      }
    }
  }

  /** After an arming with the flag down again and the cancel unserved: scheduling, two requests. */
  lemma ScheduleIsServed(timer: Runnable) returns (run: seq<Step>)
    ensures var s := System([], [CancelRequest(timer)], [Armed], false, Between);
            && AllEnabled(s, run, timer) && AllRegular(s, run, timer)
            && RunAll(s, run, timer) == System([Schedule(timer, 10)], [], [Outside], false, Between)
  {
    var cancel, sched := CancelRequest(timer), ScheduleRequest(timer, 5);
    PushOnEmpty(Schedule(timer, 10));
    var s1 := System([], [cancel], [Armed], false, Between);
    var s2 := System([], [cancel, sched], [Outside], false, Between);
    var s3 := System([], [sched], [Outside], false, Between);
    assert [cancel, sched][1..] == [sched] && [sched][1..] == [];
    assert s2 == Next(s1, TimeoutSchedule(0, 5), timer);
    assert s3 == Next(s2, ServeOne(5, FRONT), timer);
    run := Before(s3, ServeOne(5, FRONT), [], timer);
    run := Before(s2, ServeOne(5, FRONT), run, timer);
    run := Before(s1, TimeoutSchedule(0, 5), run, timer);
  }

  /** The timer is set again when its wait is over, and runs out before it is scheduled. */
  lemma SetAgainLate(timer: Runnable) returns (run: seq<Step>)
    ensures var s := System([Schedule(timer, 5)], [], [Outside], true, Decided);
            && AllEnabled(s, run, timer) && AllRegular(s, run, timer)
            && RunAll(s, run, timer) == System([Schedule(timer, 10)], [], [Outside], false, Between)
  {
    var cancel, first := CancelRequest(timer), Schedule(timer, 5);
    PushOnEmpty(first);
    var s1 := System([first], [], [Outside], true, Decided);
    var s2 := System([first], [cancel], [Cancelled], true, Decided);
    var s3 := System([first], [cancel], [Armed], true, Decided);
    var s4 := System([first], [cancel], [Armed], false, Running);
    assert [] + [cancel] == [cancel];
    assert s2 == Next(s1, TimeoutCancel(0), timer);
    assert s3 == Next(s2, TimeoutArm(0), timer);
    run := ScheduleIsServed(timer);
    run := Before(s4, PopFirst, run, timer);
    run := Before(s3, RunFirst, run, timer);
    run := Before(s2, TimeoutArm(0), run, timer);
    run := Before(s1, TimeoutCancel(0), run, timer);
  }

  /** Before that it is scheduled, and the scheduler waits for it. */
  lemma AwaitedLate(timer: Runnable) returns (run: seq<Step>)
    ensures var s := System([], [ScheduleRequest(timer, 5)], [Outside], true, Between);
            && AllEnabled(s, run, timer) && AllRegular(s, run, timer)
            && RunAll(s, run, timer) == System([Schedule(timer, 10)], [], [Outside], false, Between)
  {
    var sched, first := ScheduleRequest(timer, 5), Schedule(timer, 5);
    PushOnEmpty(first);
    var s1 := System([], [sched], [Outside], true, Between);
    var s2 := System([first], [], [Outside], true, Between);
    var s3 := System([first], [], [Outside], true, Waiting);
    assert [sched][1..] == [];
    assert s2 == Next(s1, ServeOne(0, FRONT), timer);
    run := SetAgainLate(timer);
    run := Before(s3, WaitEnds(5), run, timer);
    run := Before(s2, Wait, run, timer);
    run := Before(s1, ServeOne(0, FRONT), run, timer);
  }

  lemma ScheduledLate(timer: Runnable) returns (run: seq<Step>)
    ensures var s := System([], [CancelRequest(timer)], [Armed], true, Between);
            && AllEnabled(s, run, timer) && AllRegular(s, run, timer)
            && RunAll(s, run, timer) == System([Schedule(timer, 10)], [], [Outside], false, Between)
  {
    var cancel, sched := CancelRequest(timer), ScheduleRequest(timer, 5);
    var s1 := System([], [cancel], [Armed], true, Between);
    var s2 := System([], [cancel, sched], [Outside], true, Between);
    assert [cancel, sched][1..] == [sched];
    assert s2 == Next(s1, TimeoutSchedule(0, 5), timer);
    run := AwaitedLate(timer);
    run := Before(s2, ServeOne(0, FRONT), run, timer);
    run := Before(s1, TimeoutSchedule(0, 5), run, timer);
  }

  /** All of it, from the start. */
  lemma LateRun(timer: Runnable) returns (run: seq<Step>)
    ensures AllEnabled(Start(1), run, timer) && AllRegular(Start(1), run, timer)
    ensures RunAll(Start(1), run, timer) == System([Schedule(timer, 10)], [], [Outside], false, Between)
  {
    var s0 := Start(1);
    var s1 := System([], [CancelRequest(timer)], [Cancelled], false, Between);
    var s2 := System([], [CancelRequest(timer)], [Armed], true, Between);
    assert s0.callers == [Outside];
    assert s1 == Next(s0, TimeoutCancel(0), timer);
    assert s2 == Next(s1, TimeoutArm(0), timer);
    run := ScheduledLate(timer);
    run := Before(s1, TimeoutArm(0), run, timer);
    run := Before(s0, TimeoutCancel(0), run, timer);
  }

  /** The engaged flag does not tell whether an entry is pending: here one is, and clearTimeout,
      seeing the flag down, would leave it there to fire later. */
  lemma StaleTimer(timer: Runnable) returns (run: seq<Step>)
    ensures AllEnabled(Start(1), run, timer) && AllRegular(Start(1), run, timer)
    ensures var s := RunAll(Start(1), run, timer);
            && Misses(s, timer) && s.heap == [Schedule(timer, 10)] && s.requests == []
            && Next(s, LookAtFlag, timer) == s
  {
    run := LateRun(timer);
  }

  lemma PushOnEmpty(x: Schedule)
    ensures Push(ByDeadline, [], x) == [x] && Pop(ByDeadline, [x]) == []
  {
    assert [] + [x] == [x];
  }
}
