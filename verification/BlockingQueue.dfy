/** containers::BlockingQueue as a protocol of threads.  push holds the mutex while it appends and
    then signals if the size is one; front, front_timed wait with an if, not a loop; pop makes a
    lock object that dies at once, so it runs without the mutex, even inside another thread's push. */
module BlockingQueue {
  import opened Common

  /** Where a consumer is. */
  datatype Phase<T> =
    | Idle                   // outside the queue
    | Waiting(timed: bool)   // asleep on the condition
    | Woken                  // signalled, about to take the mutex again and read the front
    | Expired                // its timed wait ran out, about to take the mutex and return false
    | HasFront(value: T)     // front has returned; pop is next

  /** pushing: a producer holds the mutex and has appended, but not yet looked at the size.
      fault: someone has read or popped an empty queue. */
  datatype System<T> = System(
    queue: seq<T>,
    pushing: bool,
    consumers: seq<Phase<T>>,
    pushed: seq<T>,
    consumed: seq<T>,
    fault: bool
  )

  datatype Step<T> =
    | Append(value: T)
    | CheckSignal(chosen: Option<nat>)
    | Front(c: nat, timed: bool)
    | Reread(c: nat)
    | Expire(c: nat)
    | ReturnFalse(c: nat)
    | Pop(c: nat)

  predicate Asleep<T>(s: System<T>, c: nat) {
    c < |s.consumers| && s.consumers[c].Waiting?
  }

  /** A signal wakes one waiting thread, whichever, if there is one. */
  predicate MayWake<T>(s: System<T>, chosen: Option<nat>) {
    match chosen
    case None => forall c :: 0 <= c < |s.consumers| ==> !Asleep(s, c)
    case Some(c) => Asleep(s, c)
  }

  /** Steps that need the mutex are possible only while no producer holds it. */
  predicate Enabled<T>(s: System<T>, a: Step<T>) {
    match a
    case Append(_) => !s.pushing
    case CheckSignal(chosen) => s.pushing && if |s.queue| == 1 then MayWake(s, chosen) else chosen == None
    case Front(c, _) => !s.pushing && c < |s.consumers| && s.consumers[c].Idle?
    case Reread(c) => !s.pushing && c < |s.consumers| && s.consumers[c].Woken?
    case Expire(c) => Asleep(s, c) && s.consumers[c].timed
    case ReturnFalse(c) => !s.pushing && c < |s.consumers| && s.consumers[c].Expired?
    case Pop(c) => c < |s.consumers| && s.consumers[c].HasFront?
  }

  function Next<T>(s: System<T>, a: Step<T>): System<T>
    requires Enabled(s, a)
  {
    match a
    case Append(v) => s.(queue := s.queue + [v], pushing := true, pushed := s.pushed + [v])
    case CheckSignal(chosen) =>
      s.(pushing := false, consumers := if chosen.Some? then s.consumers[chosen.value := Woken] else s.consumers)
    case Front(c, timed) =>
      s.(consumers := s.consumers[c := if s.queue == [] then Waiting(timed) else HasFront(s.queue[0])])
    case Reread(c) =>
      if s.queue == [] then s.(fault := true)
      else s.(consumers := s.consumers[c := HasFront(s.queue[0])])
    case Expire(c) => s.(consumers := s.consumers[c := Expired])
    case ReturnFalse(c) => s.(consumers := s.consumers[c := Idle])
    case Pop(c) =>
      if s.queue == [] then s.(fault := true)
      else s.(queue := s.queue[1..], consumed := s.consumed + [s.consumers[c].value],
              consumers := s.consumers[c := Idle])
  }

  predicate AllEnabled<T>(s: System<T>, run: seq<Step<T>>)
    decreases |run|
  {
    run == [] || (Enabled(s, run[0]) && AllEnabled(Next(s, run[0]), run[1..]))
  }

  function RunAll<T>(s: System<T>, run: seq<Step<T>>): System<T>
    requires AllEnabled(s, run)
    decreases |run|
  {
    if run == [] then s else RunAll(Next(s, run[0]), run[1..])
  }

  function Start<T>(consumers: nat): System<T> {
    System([], false, seq(consumers, _ => Idle), [], [], false)
  }

  // ---------- one consumer ----------

  ghost predicate Good<T>(s: System<T>) {
    && |s.consumers| == 1 && !s.fault
    && s.pushed == s.consumed + s.queue
    && match s.consumers[0]
       case Waiting(_) => s.queue == [] || (s.pushing && |s.queue| == 1)
       case Woken => s.queue != []
       case HasFront(v) => s.queue != [] && s.queue[0] == v
       case _ => true
  }

  lemma StepGood<T>(s: System<T>, a: Step<T>)
    requires Good(s) && Enabled(s, a)
    ensures Good(Next(s, a))
  {
    match a
    case CheckSignal(chosen) =>
      if s.consumers[0].Waiting? && |s.queue| == 1 {
        assert Asleep(s, 0);
      }
    case Pop(_) =>
      assert s.queue == [s.queue[0]] + s.queue[1..];
    case _ =>
  }

  lemma {:induction false} RunGood<T>(s: System<T>, run: seq<Step<T>>)
    requires Good(s) && AllEnabled(s, run)
    ensures Good(RunAll(s, run))
    decreases |run|
  {
    if run != [] {
      StepGood(s, run[0]);
      RunGood(Next(s, run[0]), run[1..]);
    }
  }

  /** With one consumer, in every interleaving with any number of producers: an empty queue is
      never read or popped, what was consumed is a prefix of what was pushed, in order, the rest is
      in the queue, and the consumer sleeps with no push in progress only on an empty queue. */
  lemma OneConsumer<T>(run: seq<Step<T>>)
    requires AllEnabled(Start<T>(1), run)
    ensures var s := RunAll(Start<T>(1), run);
            && !s.fault && |s.consumers| == 1
            && (s.consumers[0].Woken? || s.consumers[0].HasFront? ==> s.queue != [])
            && s.pushed == s.consumed + s.queue
            && (Asleep(s, 0) && !s.pushing ==> s.queue == [])
  {
    RunGood(Start<T>(1), run);
  }

  /** With a value in the queue and the lock free, the consumer gets on, wherever it is: it calls front
      and has the first value, or has been woken and has it, or pops it, or returns from a wait that
      was too long. */
  lemma ConsumerGetsOn<T>(run: seq<Step<T>>, timed: bool)
    requires AllEnabled(Start<T>(1), run)
    ensures var s := RunAll(Start<T>(1), run);
            |s.consumers| == 1 &&
            (s.queue != [] && !s.pushing ==>
              match s.consumers[0]
              case Idle => Enabled(s, Front(0, timed)) && Has(Next(s, Front(0, timed)), s)
              case Waiting(_) => false
              case Woken => Enabled(s, Reread(0)) && Has(Next(s, Reread(0)), s)
              case Expired => Enabled(s, ReturnFalse(0)) && Next(s, ReturnFalse(0)).consumers == [Idle]
              case HasFront(v) =>
                && Enabled(s, Pop(0))
                && var t := Next(s, Pop(0));
                   t.consumers == [Idle] && t.queue == s.queue[1..] && t.consumed == s.consumed + [s.queue[0]])
  {
    RunGood(Start<T>(1), run);
  }

  /** The consumer holds the first value of the queue as it was. */
  ghost predicate Has<T>(t: System<T>, s: System<T>)
    requires s.queue != []
  {
    t.consumers == [HasFront(s.queue[0])] && t.queue == s.queue && t.consumed == s.consumed && t.pushed == s.pushed
  }

  /** A push appends its value, and then wakes a thread that waited for the first one. */
  lemma PushesWake<T>(s: System<T>, v: T)
    requires !s.pushing
    ensures var t := Next(s, Append(v));
            && t.queue == s.queue + [v] && t.pushed == s.pushed + [v] && t.consumers == s.consumers
            && (forall c: nat :: Asleep(t, c) && s.queue == [] ==>
                  Enabled(t, CheckSignal(Some(c))) &&
                  Next(t, CheckSignal(Some(c))).consumers == t.consumers[c := Woken])
            && (forall chosen :: Enabled(t, CheckSignal(chosen)) ==>
                  !Next(t, CheckSignal(chosen)).pushing && Next(t, CheckSignal(chosen)).queue == t.queue)
  {
  }

  // ---------- one turn of a consumer ----------

  function Appended<T>(run: seq<Step<T>>): seq<T>
    decreases |run|
  {
    if run == [] then []
    else (if run[0].Append? then [run[0].value] else []) + Appended(run[1..])
  }

  /** A stretch that ends when the consumer is done with front and pop, or with front_timed. */
  predicate OneTurn<T>(run: seq<Step<T>>) {
    && run != [] && (run[|run| - 1].Pop? || run[|run| - 1].ReturnFalse?)
    && forall i :: 0 <= i < |run| - 1 ==> !run[i].Pop? && !run[i].ReturnFalse?
  }

  /** All calls of front in the stretch are timed, or none is. */
  predicate AllTimed<T>(run: seq<Step<T>>, timed: bool) {
    forall i :: 0 <= i < |run| ==> run[i].Front? ==> run[i].timed == timed
  }

  /** waits: front has been called and found the queue empty. */
  predicate InTurn<T>(s: System<T>, timed: bool, waits: bool)
    requires |s.consumers| == 1
  {
    match s.consumers[0]
    case Waiting(t) => t == timed && waits
    case Expired => timed && waits
    case _ => true
  }

  /** A turn is over, at which all was there to be read: the first value of it is taken, or none. */
  ghost predicate Done<T>(t: System<T>, last: Step<T>, all: seq<T>, consumed: seq<T>) {
    && Good(t) && t.consumers == [Idle]
    && (last.Pop? ==> all != [] && t.queue == all[1..] && t.consumed == consumed + [all[0]])
    && (last.ReturnFalse? ==> t.queue == all && t.consumed == consumed)
  }

  predicate Found<T>(s: System<T>, a: Step<T>, waits: bool) {
    waits || (a.Front? && s.queue == [])
  }

  lemma TurnStep<T>(s: System<T>, a: Step<T>, timed: bool, waits: bool)
    requires Good(s) && Enabled(s, a) && !a.Pop? && !a.ReturnFalse? && AllTimed([a], timed)
    requires InTurn(s, timed, waits) && (s.consumers[0].Idle? ==> !waits)
    ensures var t := Next(s, a);
            && Good(t) && InTurn(t, timed, Found(s, a, waits)) && (t.consumers[0].Idle? ==> !Found(s, a, waits))
            && t.queue == s.queue + (if a.Append? then [a.value] else []) && t.consumed == s.consumed
  {
    StepGood(s, a);
    assert [a][0] == a;
    assert a.CheckSignal? && a.chosen.Some? ==> Asleep(s, a.chosen.value);
  }

  lemma TurnLast<T>(s: System<T>, a: Step<T>, timed: bool, waits: bool)
    requires Good(s) && Enabled(s, a) && (a.Pop? || a.ReturnFalse?)
    requires InTurn(s, timed, waits)
    ensures var t := Next(s, a);
            Done(t, a, s.queue, s.consumed) && (a.ReturnFalse? ==> timed && waits)
  {
    StepGood(s, a);
  }

  lemma ShorterTurn<T>(run: seq<Step<T>>, timed: bool)
    requires |run| > 1 && OneTurn(run) && AllTimed(run, timed)
    ensures OneTurn(run[1..]) && AllTimed(run[1..], timed) && AllTimed([run[0]], timed)
    ensures !run[0].Pop? && !run[0].ReturnFalse? && run[1..][|run[1..]| - 1] == run[|run| - 1]
  {
    assert forall i :: 0 <= i < |run| - 1 ==> run[1..][i] == run[i + 1];
  }

  lemma {:induction false} TurnEnds<T>(s: System<T>, run: seq<Step<T>>, timed: bool, waits: bool)
    requires Good(s) && AllEnabled(s, run) && OneTurn(run) && AllTimed(run, timed)
    requires InTurn(s, timed, waits) && (s.consumers[0].Idle? ==> !waits)
    ensures var t, all := RunAll(s, run), s.queue + Appended(run);
            && Done(t, run[|run| - 1], all, s.consumed)
            && (run[|run| - 1].ReturnFalse? ==> timed && (s.queue == [] || waits))
    decreases |run|
  {
    var t := Next(s, run[0]);
    if |run| > 1 {
      ShorterTurn(run, timed);
      TurnStep(s, run[0], timed, waits);
      TurnEnds(t, run[1..], timed, Found(s, run[0], waits));
      Assoc(s.queue, if run[0].Append? then [run[0].value] else [], Appended(run[1..]));
    } else {
      TurnLast(s, run[0], timed, waits);
      assert run[1..] == [] && s.queue + Appended(run) == s.queue;
    }
  }

  /** A run is a turn that brings these values and whose calls of front are as given. */
  ghost predicate TurnWith<T>(s: System<T>, run: seq<Step<T>>, timed: bool, values: seq<T>) {
    AllEnabled(s, run) && OneTurn(run) && AllTimed(run, timed) && Appended(run) == values
  }

  /** One turn of the only consumer, whatever producers do meanwhile: it takes the first value there
      is, or, if its waiting is timed, finds the queue empty and takes nothing. */
  lemma TurnReads<T>(s: System<T>, run: seq<Step<T>>, timed: bool, values: seq<T>)
    requires Good(s) && s.consumers == [Idle] && TurnWith(s, run, timed, values)
    ensures var t, all := RunAll(s, run), s.queue + values;
            && Done(t, run[|run| - 1], all, s.consumed)
            && (run[|run| - 1].ReturnFalse? ==> timed && s.queue == [])
  {
    TurnEnds(s, run, timed, false);
  }

  lemma RunCons<T>(s: System<T>, a: Step<T>, rest: seq<Step<T>>)
    requires Enabled(s, a) && AllEnabled(Next(s, a), rest)
    ensures AllEnabled(s, [a] + rest) && RunAll(s, [a] + rest) == RunAll(Next(s, a), rest)
  {
    assert ([a] + rest)[1..] == rest;
  }

  lemma LastStep<T>(s: System<T>, a: Step<T>, timed: bool) returns (run: seq<Step<T>>)
    requires Enabled(s, a) && (a.Pop? || a.ReturnFalse?)
    ensures TurnWith(s, run, timed, []) && run[|run| - 1] == a
  {
    run := [a];
    assert run[1..] == [] && AllEnabled(Next(s, a), []);
  }

  lemma TurnCons<T>(s: System<T>, a: Step<T>, rest: seq<Step<T>>, timed: bool, values: seq<T>)
    returns (run: seq<Step<T>>)
    requires Enabled(s, a) && !a.Pop? && !a.ReturnFalse? && (a.Front? ==> a.timed == timed)
    requires TurnWith(Next(s, a), rest, timed, values)
    ensures TurnWith(s, run, timed, (if a.Append? then [a.value] else []) + values)
    ensures run[|run| - 1] == rest[|rest| - 1]
  {
    RunCons(s, a, rest);
    run := [a] + rest;
    assert run[1..] == rest;
    assert forall i :: 1 <= i < |run| ==> run[i] == rest[i - 1];
  }

  /** Producers may push any values while nobody sleeps. */
  lemma {:induction false} PushesFirst<T>(s: System<T>, values: seq<T>, timed: bool, last: seq<Step<T>>)
    returns (run: seq<Step<T>>)
    requires |s.consumers| == 1 && !Asleep(s, 0) && !s.pushing
    requires TurnWith(s.(queue := s.queue + values, pushed := s.pushed + values), last, timed, [])
    ensures TurnWith(s, run, timed, values) && run[|run| - 1] == last[|last| - 1]
    decreases |values|
  {
    if values == [] {
      assert s.queue + values == s.queue && s.pushed + values == s.pushed;
      run := last;
    } else {
      var v, rest := values[0], values[1..];
      assert [v] + rest == values;
      Assoc(s.queue, [v], rest);
      Assoc(s.pushed, [v], rest);
      var t := Next(s, Append(v));
      assert MayWake(t, None);
      var u := Next(t, CheckSignal(None));
      run := PushesFirst(u, rest, timed, last);
      run := TurnCons(t, CheckSignal(None), run, timed, rest);
      run := TurnCons(s, Append(v), run, timed, rest);
    }
  }

  /** The lock is free at the latest after the signal of the push in progress. */
  lemma Unlocked<T>(s: System<T>, last: seq<Step<T>>, timed: bool, values: seq<T>) returns (run: seq<Step<T>>)
    requires s.consumers == [Idle] && TurnWith(s.(pushing := false), last, timed, values)
    ensures TurnWith(s, run, timed, values) && run[|run| - 1] == last[|last| - 1]
  {
    if s.pushing {
      assert MayWake(s, None);
      run := TurnCons(s, CheckSignal(None), last, timed, values);
    } else {
      run := last;
    }
  }

  /** Conversely, each of the two outcomes that TurnReads leaves does occur. */
  lemma SomeTurnReads<T>(s: System<T>, values: seq<T>, timed: bool) returns (run: seq<Step<T>>)
    requires s.consumers == [Idle] && s.queue + values != []
    ensures TurnWith(s, run, timed, values) && run[|run| - 1].Pop?
  {
    var t := s.(pushing := false);
    var u := t.(queue := t.queue + values, pushed := t.pushed + values);
    run := LastStep(Next(u, Front(0, timed)), Pop(0), timed);
    run := TurnCons(u, Front(0, timed), run, timed, []);
    run := PushesFirst(t, values, timed, run);
    run := Unlocked(s, run, timed, values);
  }

  lemma SomeTurnReadsNothing<T>(s: System<T>, values: seq<T>) returns (run: seq<Step<T>>)
    requires s.consumers == [Idle] && s.queue == []
    ensures TurnWith(s, run, true, values) && run[|run| - 1].ReturnFalse?
  {
    var t := s.(pushing := false);
    var u := Next(t, Front(0, true));
    var v := Next(u, Expire(0));
    run := LastStep(v.(queue := v.queue + values, pushed := v.pushed + values), ReturnFalse(0), true);
    run := PushesFirst(v, values, true, run);
    run := TurnCons(u, Expire(0), run, true, values);
    run := TurnCons(t, Front(0, true), run, true, values);
    run := Unlocked(s, run, true, values);
  }

  // ---------- several consumers ----------

  /** The second consumer takes the value between the signal and the first one's return. */
  function StolenRun<T>(v: T): seq<Step<T>> {
    [Front(0, false)] + ([Append(v)] + ([CheckSignal(Some(0))] + ([Front(1, false)] + ([Pop(1)] + [Reread(0)]))))
  }

  /** From two consumers on, the if around the wait is not enough. */
  lemma TwoConsumersFault<T>(n: nat, v: T)
    requires n >= 2
    ensures AllEnabled(Start<T>(n), StolenRun(v)) && RunAll(Start<T>(n), StolenRun(v)).fault
  {
    var idle: seq<Phase<T>> := Start<T>(n).consumers;
    var s1 := System([], false, idle[0 := Waiting(false)], [], [], false);
    var s2 := System([v], true, idle[0 := Waiting(false)], [v], [], false);
    var s3 := System([v], false, idle[0 := Woken], [v], [], false);
    var s4 := System([v], false, idle[0 := Woken][1 := HasFront(v)], [v], [], false);
    var s5 := System([], false, idle[0 := Woken], [v], [v], false);
    assert idle[0 := Waiting(false)][0 := Woken] == idle[0 := Woken];
    assert idle[0 := Woken][1 := HasFront(v)][1 := Idle] == idle[0 := Woken];
    assert [] + [v] == [v] && [v][1..] == [];
    assert s1 == Next(Start<T>(n), Front(0, false));
    assert s2 == Next(s1, Append(v));
    assert Asleep(s2, 0) && s3 == Next(s2, CheckSignal(Some(0)));
    assert s4 == Next(s3, Front(1, false));
    assert s5 == Next(s4, Pop(1));
    var last: seq<Step<T>> := [Reread(0)];
    assert last + [] == last;
    RunCons(s5, Reread(0), []);
    RunCons(s4, Pop(1), [Reread(0)]);
    RunCons(s3, Front(1, false), [Pop(1)] + [Reread(0)]);
    RunCons(s2, CheckSignal(Some(0)), [Front(1, false)] + ([Pop(1)] + [Reread(0)]));
    RunCons(s1, Append(v), [CheckSignal(Some(0))] + ([Front(1, false)] + ([Pop(1)] + [Reread(0)])));
    RunCons(Start<T>(n), Front(0, false),
            [Append(v)] + ([CheckSignal(Some(0))] + ([Front(1, false)] + ([Pop(1)] + [Reread(0)]))));
  }

  /** Two consumers asleep, two values pushed at once: only the first push signals. */
  function MissedRun<T>(v: T, w: T): seq<Step<T>> {
    [Front(0, false)] + ([Front(1, false)] +
    ([Append(v)] + ([CheckSignal(Some(0))] + ([Append(w)] + [CheckSignal(None)]))))
  }

  /** From two consumers on, one can stay asleep although there is a value for it. */
  lemma TwoConsumersMissed<T>(n: nat, v: T, w: T)
    requires n >= 2
    ensures AllEnabled(Start<T>(n), MissedRun(v, w))
    ensures var s := RunAll(Start<T>(n), MissedRun(v, w)); Asleep(s, 1) && !s.pushing && s.queue == [v, w]
  {
    var idle: seq<Phase<T>> := Start<T>(n).consumers;
    var one := idle[0 := Waiting(false)];
    var both := one[1 := Waiting(false)];
    var s1 := System([], false, one, [], [], false);
    var s2 := System([], false, both, [], [], false);
    var s3 := System([v], true, both, [v], [], false);
    var s4 := System([v], false, both[0 := Woken], [v], [], false);
    var s5 := System([v, w], true, both[0 := Woken], [v, w], [], false);
    assert [] + [v] == [v] && [v] + [w] == [v, w];
    assert s2 == Next(s1, Front(1, false));
    assert s3 == Next(s2, Append(v));
    assert Asleep(s3, 0) && s4 == Next(s3, CheckSignal(Some(0)));
    assert s5 == Next(s4, Append(w));
    var last: seq<Step<T>> := [CheckSignal(None)];
    assert last + [] == last;
    RunCons(s5, CheckSignal(None), []);
    RunCons(s4, Append(w), last);
    RunCons(s3, CheckSignal(Some(0)), [Append(w)] + last);
    RunCons(s2, Append(v), [CheckSignal(Some(0))] + ([Append(w)] + last));
    RunCons(s1, Front(1, false), [Append(v)] + ([CheckSignal(Some(0))] + ([Append(w)] + last)));
    RunCons(Start<T>(n), Front(0, false),
            [Front(1, false)] + ([Append(v)] + ([CheckSignal(Some(0))] + ([Append(w)] + last))));
  }

  lemma {:induction false} NoConsumerGood<T>(s: System<T>, run: seq<Step<T>>)
    requires s.consumers == [] && !s.fault && AllEnabled(s, run)
    ensures !RunAll(s, run).fault
    decreases |run|
  {
    if run != [] {
      NoConsumerGood(Next(s, run[0]), run[1..]);
    }
  }

  /** The queue is safe in all interleavings exactly when there is at most one consumer. */
  lemma SafeIffOneConsumer<T(!new)>(n: nat, v: T)
    ensures n <= 1 <==> forall run: seq<Step<T>> :: AllEnabled(Start<T>(n), run) ==> !RunAll(Start<T>(n), run).fault
  {
    if n >= 2 {
      TwoConsumersFault<T>(n, v);
    } else {
      forall run: seq<Step<T>> | AllEnabled(Start<T>(n), run)
        ensures !RunAll(Start<T>(n), run).fault
      {
        if n == 1 { RunGood(Start<T>(1), run); } else { NoConsumerGood(Start<T>(0), run); }
      }
    }
  }
}
