/** jQuery.Callbacks("once memory") and the jQuery.Deferred built from two such lists.
    Callbacks may call done, fail, resolve and reject while their list is being fired; the
    index arithmetic of the lists is shown to implement the plain meaning of a promise. */
module Deferred {
  import opened Common

  /** The arguments handed to the callbacks. */
  type Data = seq<int>

  datatype Kind = DoneList | FailList {
    function Other(): Kind {
      if DoneList? then FailList else DoneList
    }
  }

  /** What a callback does when it runs, or what a program does with a deferred: add callbacks to
      one of the lists, or resolve (fire the done list) or reject (fire the fail list). */
  datatype Action = Add(kind: Kind, callbacks: seq<Callback>) | Fire(kind: Kind, data: Data)
  /** throws: after the calls of its script it ends by throwing. */
  datatype Callback = Callback(id: nat, script: seq<Action>, throws: bool)

  /** The entries of a list: the three that Deferred itself adds, then the users'. */
  datatype Entry = SetState | DisableOther | LockProgress | User(callback: Callback)

  datatype State = Pending | Settled(kind: Kind)

  // ---------- how much a callback can still cause ----------

  function Size(c: Callback): nat {
    1 + ScriptSize(c.script)
  }

  function ScriptSize(script: seq<Action>): nat {
    if script == [] then 0
    else (match script[0] case Add(_, cs) => Work(cs) case Fire(_, _) => 0) + ScriptSize(script[1..])
  }

  function Work(cs: seq<Callback>): nat {
    if cs == [] then 0 else Size(cs[0]) + Work(cs[1..])
  }

  lemma {:induction false} WorkConcat(a: seq<Callback>, b: seq<Callback>)
    ensures Work(a + b) == Work(a) + Work(b)
  {
    if a == [] {
      assert a + b == b;
    } else {
      WorkConcat(a[1..], b);
      assert (a + b)[1..] == a[1..] + b;
    }
  }

  /** The callbacks that a script adds to one list. */
  function Additions(kind: Kind, script: seq<Action>): (cs: seq<Callback>)
    ensures Work(cs) <= ScriptSize(script)
  {
    if script == [] then []
    else
      var rest := Additions(kind, script[1..]);
      if script[0].Add? && script[0].kind == kind then
        WorkConcat(script[0].callbacks, rest);
        script[0].callbacks + rest
      else rest
  }

  lemma {:induction false} AdditionsSnoc(kind: Kind, script: seq<Action>, a: Action)
    ensures Additions(kind, script + [a]) ==
            if a.Add? && a.kind == kind then Additions(kind, script) + a.callbacks else Additions(kind, script)
  {
    if script == [] {
      assert script + [a] == [a];
      assert Additions(kind, [a][1..]) == [];
    } else {
      AdditionsSnoc(kind, script[1..], a);
      assert (script + [a])[1..] == script[1..] + [a];
    }
  }

  lemma AdditionsOne(kind: Kind, script: seq<Action>, a: Action)
    ensures Additions(kind, script + [a]) == Additions(kind, script) + Additions(kind, [a])
  {
    AdditionsSnoc(kind, script, a);
    AdditionsSnoc(kind, [], a);
    assert [] + [a] == [a];
  }

  /** The order in which a settled list runs its callbacks: what a callback adds goes to the end. */
  function Drain(kind: Kind, queue: seq<Callback>): seq<Callback>
    decreases Work(queue)
  {
    if queue == [] then []
    else
      WorkConcat(queue[1..], Additions(kind, queue[0].script));
      assert Work(queue) == Size(queue[0]) + Work(queue[1..]);
      [queue[0]] + Drain(kind, queue[1..] + Additions(kind, queue[0].script))
  }

  // ---------- the meaning of a deferred ----------

  predicate Throws(cs: seq<Callback>) {
    exists i :: 0 <= i < |cs| && cs[i].throws
  }

  function UpToThrow(cs: seq<Callback>): (r: seq<Callback>)
    ensures r <= cs
  {
    if cs == [] then [] else if cs[0].throws then [cs[0]] else [cs[0]] + UpToThrow(cs[1..])
  }

  /** Unsettled, the callbacks wait; settled, those of the winning list have run, with the data
      of the settling call, and the other list is dead.  After a callback that throws the winning
      list is stuck: it goes on being marked as firing, and nothing runs any more. */
  datatype Promise =
    | Waiting(done: seq<Callback>, fail: seq<Callback>)
    | Over(winner: Kind, data: Data, ran: seq<Callback>)
    | Stuck(winner: Kind, data: Data, ran: seq<Callback>)

  /** The winning list, of which some have run, runs a batch. */
  function RunOff(kind: Kind, data: Data, ran: seq<Callback>, queue: seq<Callback>): Promise {
    var order := Drain(kind, queue);
    if Throws(order) then Stuck(kind, data, ran + UpToThrow(order)) else Over(kind, data, ran + order)
  }

  function Queue(p: Promise, kind: Kind): seq<Callback>
    requires p.Waiting?
  {
    if kind == DoneList then p.done else p.fail
  }

  function Apply(p: Promise, a: Action): Promise {
    match (p, a)
    case (Waiting(d, f), Add(DoneList, cs)) => Waiting(d + cs, f)
    case (Waiting(d, f), Add(FailList, cs)) => Waiting(d, f + cs)
    case (Waiting(_, _), Fire(kind, data)) => RunOff(kind, data, [], Queue(p, kind))
    case (Over(w, data, ran), Add(kind, cs)) => if kind == w then RunOff(w, data, ran, cs) else p
    case (_, _) => p
  }

  function ApplyAll(p: Promise, program: seq<Action>): Promise
    decreases |program|
  {
    if program == [] then p else ApplyAll(Apply(p, program[0]), program[1..])
  }

  lemma {:induction false} ApplyAllSnoc(p: Promise, program: seq<Action>, a: Action)
    ensures ApplyAll(p, program + [a]) == Apply(ApplyAll(p, program), a)
    decreases |program|
  {
    if program == [] {
      assert program + [a] == [a];
      assert ApplyAll(Apply(p, a), [a][1..]) == Apply(p, a);
    } else {
      ApplyAllSnoc(Apply(p, program[0]), program[1..], a);
      assert (program + [a])[1..] == program[1..] + [a];
    }
  }

  // ---------- what that meaning amounts to ----------

  /** Everything the callbacks of cs add to one list when they run. */
  function Spawned(kind: Kind, cs: seq<Callback>): seq<Callback> {
    if cs == [] then [] else Additions(kind, cs[0].script) + Spawned(kind, cs[1..])
  }

  lemma {:induction false} SpawnedConcat(kind: Kind, a: seq<Callback>, b: seq<Callback>)
    ensures Spawned(kind, a + b) == Spawned(kind, a) + Spawned(kind, b)
  {
    if a == [] {
      assert a + b == b;
    } else {
      SpawnedConcat(kind, a[1..], b);
      assert (a + b)[0] == a[0] && (a + b)[1..] == a[1..] + b;
      Assoc(Additions(kind, a[0].script), Spawned(kind, a[1..]), Spawned(kind, b));
    }
  }

  lemma SpawnedCons(kind: Kind, c: Callback, cs: seq<Callback>)
    ensures Spawned(kind, [c] + cs) == Additions(kind, c.script) + Spawned(kind, cs)
  {
    assert ([c] + cs)[1..] == cs;
  }

  lemma Regroup(head: seq<Callback>, tail: seq<Callback>, adds: seq<Callback>, later: seq<Callback>)
    ensures head + (tail + adds + later) == (head + tail) + (adds + later)
  {
  }

  /** Draining runs the queue and what the callbacks add meanwhile, in the order of the additions. */
  lemma {:induction false} DrainRunsAll(kind: Kind, queue: seq<Callback>)
    ensures Drain(kind, queue) == queue + Spawned(kind, Drain(kind, queue))
    decreases Work(queue)
  {
    if queue != [] {
      var c, tail, adds := queue[0], queue[1..], Additions(kind, queue[0].script);
      WorkConcat(tail, adds);
      assert Work(queue) == Size(c) + Work(tail);
      var rest := Drain(kind, tail + adds);
      DrainRunsAll(kind, tail + adds);
      assert Drain(kind, queue) == [c] + rest;
      SpawnedCons(kind, c, rest);
      Regroup([c], tail, adds, Spawned(kind, rest));
      assert [c] + tail == queue;
    }
  }

  lemma PrefixAfter(head: seq<Callback>, ran: seq<Callback>, all: seq<Callback>)
    requires ran <= all
    ensures head + ran <= head + all
  {
    assert (head + all)[..|head + ran|] == head + all[..|ran|];
  }

  /** At every moment of a batch, what has run is a beginning of the queue and what was added
      meanwhile. */
  lemma {:induction false} DrainInOrder(kind: Kind, queue: seq<Callback>, n: nat)
    requires n <= |Drain(kind, queue)|
    ensures Drain(kind, queue)[..n] <= queue + Spawned(kind, Drain(kind, queue)[..n])
    decreases n
  {
    if n > 0 {
      var c, tail, adds := queue[0], queue[1..], Additions(kind, queue[0].script);
      WorkConcat(tail, adds);
      assert Work(queue) == Size(c) + Work(tail);
      var rest := Drain(kind, tail + adds);
      assert Drain(kind, queue) == [c] + rest;
      DrainInOrder(kind, tail + adds, n - 1);
      assert Drain(kind, queue)[..n] == [c] + rest[..n - 1];
      SpawnedCons(kind, c, rest[..n - 1]);
      Regroup([c], tail, adds, Spawned(kind, rest[..n - 1]));
      assert [c] + tail == queue;
      PrefixAfter([c], rest[..n - 1], tail + adds + Spawned(kind, rest[..n - 1]));
    }
  }

  /** What the callbacks of the winning list may expect: each to run as often as it was added, by the
      program itself or by callbacks that ran. */
  ghost function Expected(p: Promise, program: seq<Action>): multiset<Callback>
    requires !p.Waiting?
  {
    multiset(Additions(p.winner, program)) + multiset(Spawned(p.winner, p.ran))
  }

  ghost predicate ExactlyOnce(p: Promise, program: seq<Action>) {
    match p
    case Waiting(d, f) => d == Additions(DoneList, program) && f == Additions(FailList, program)
    case _ => multiset(p.ran) == Expected(p, program)
  }

  ghost predicate AtMostOnce(p: Promise, program: seq<Action>) {
    p.Waiting? || multiset(p.ran) <= Expected(p, program)
  }

  lemma Sums(ran: multiset<Callback>, cut: multiset<Callback>, rest: multiset<Callback>, added: multiset<Callback>,
             cs: multiset<Callback>, before: multiset<Callback>, now: multiset<Callback>)
    requires ran == added + before && cut + rest == cs + now
    ensures ran + cut + rest == added + cs + (before + now)
  {
    forall c: Callback
      ensures (ran + cut + rest)[c] == (added + cs + (before + now))[c]
    {
      assert (cut + rest)[c] == (cs + now)[c];
    }
  }

  lemma CountUp(ran: seq<Callback>, cut: seq<Callback>, rest: seq<Callback>, added: seq<Callback>,
                cs: seq<Callback>, before: seq<Callback>, now: seq<Callback>)
    requires multiset(ran) == multiset(added) + multiset(before) && cut + rest == cs + now
    ensures multiset(ran + cut) + multiset(rest) == multiset(added + cs) + multiset(before + now)
  {
    assert multiset(cut + rest) == multiset(cut) + multiset(rest);
    assert multiset(cs + now) == multiset(cs) + multiset(now);
    assert multiset(ran + cut) == multiset(ran) + multiset(cut);
    assert multiset(added + cs) == multiset(added) + multiset(cs);
    assert multiset(before + now) == multiset(before) + multiset(now);
    Sums(multiset(ran), multiset(cut), multiset(rest), multiset(added), multiset(cs), multiset(before), multiset(now));
  }

  lemma CutUp(ran: seq<Callback>, cut: seq<Callback>, added: seq<Callback>, cs: seq<Callback>,
              before: seq<Callback>, now: seq<Callback>)
    requires multiset(ran) == multiset(added) + multiset(before) && cut <= cs + now
    ensures var expected := multiset(added + cs) + multiset(before + now);
            multiset(ran + cut) <= expected && (cut == cs + now ==> multiset(ran + cut) == expected)
  {
    var rest := (cs + now)[|cut|..];
    assert cut + rest == cs + now;
    CountUp(ran, cut, rest, added, cs, before, now);
  }

  /** What has run of a batch, and what is left of it. */
  lemma CutOnce(w: Kind, added: seq<Callback>, ran: seq<Callback>, cs: seq<Callback>, cut: seq<Callback>)
    requires multiset(ran) == multiset(added) + multiset(Spawned(w, ran)) && cut <= Drain(w, cs)
    ensures var expected := multiset(added + cs) + multiset(Spawned(w, ran + cut));
            multiset(ran + cut) <= expected && (cut == Drain(w, cs) ==> multiset(ran + cut) == expected)
  {
    var order, now := Drain(w, cs), Spawned(w, cut);
    DrainInOrder(w, cs, |cut|);
    assert order[..|cut|] == cut;
    DrainRunsAll(w, cs);
    SpawnedConcat(w, ran, cut);
    CutUp(ran, cut, added, cs, Spawned(w, ran), now);
  }

  lemma BatchOnce(w: Kind, data: Data, added: seq<Callback>, ran: seq<Callback>, cs: seq<Callback>)
    requires multiset(ran) == multiset(added) + multiset(Spawned(w, ran))
    ensures var p := RunOff(w, data, ran, cs);
            var expected := multiset(added + cs) + multiset(Spawned(w, p.ran));
            multiset(p.ran) <= expected && (p.Over? ==> multiset(p.ran) == expected)
  {
    var order := Drain(w, cs);
    CutOnce(w, added, ran, cs, if Throws(order) then UpToThrow(order) else order);
  }

  lemma StepExactlyOnce(p: Promise, before: seq<Action>, a: Action)
    requires ExactlyOnce(p, before) && !p.Stuck?
    ensures var q := Apply(p, a);
            AtMostOnce(q, before + [a]) && (!q.Stuck? ==> ExactlyOnce(q, before + [a]))
  {
    match p
    case Waiting(_, _) =>
      AdditionsSnoc(DoneList, before, a);
      AdditionsSnoc(FailList, before, a);
      if a.Fire? {
        BatchOnce(a.kind, a.data, [], [], Queue(p, a.kind));
        assert [] + Queue(p, a.kind) == Additions(a.kind, before + [a]);
      }
    case Over(w, data, ran) =>
      AdditionsSnoc(w, before, a);
      if a.Add? && a.kind == w {
        BatchOnce(w, data, Additions(w, before), ran, a.callbacks);
      }
  }

  lemma StuckAtMostOnce(p: Promise, before: seq<Action>, a: Action)
    requires p.Stuck? && AtMostOnce(p, before)
    ensures AtMostOnce(p, before + [a])
  {
    AdditionsOne(p.winner, before, a);
    assert multiset(Additions(p.winner, before) + Additions(p.winner, [a])) ==
           multiset(Additions(p.winner, before)) + multiset(Additions(p.winner, [a]));
  }

  /** No callback ever runs more often than it was added to the winning list, and unless one threw,
      each runs exactly as often. */
  lemma {:induction false} RunExactlyOnce(program: seq<Action>)
    ensures var p := ApplyAll(Waiting([], []), program);
            AtMostOnce(p, program) && (!p.Stuck? ==> ExactlyOnce(p, program))
    decreases |program|
  {
    if program != [] {
      var before, a := program[..|program| - 1], program[|program| - 1];
      assert program == before + [a];
      RunExactlyOnce(before);
      ApplyAllSnoc(Waiting([], []), before, a);
      var p := ApplyAll(Waiting([], []), before);
      if p.Stuck? {
        StuckAtMostOnce(p, before, a);
      } else {
        StepExactlyOnce(p, before, a);
      }
    }
  }

  // ---------- callbacks that throw ----------

  lemma {:induction false} CutThrows(cs: seq<Callback>)
    ensures Throws(cs) <==> Throws(UpToThrow(cs))
  {
    if cs != [] && !cs[0].throws {
      CutThrows(cs[1..]);
      var rest := UpToThrow(cs[1..]);
      assert UpToThrow(cs) == [cs[0]] + rest;
      if Throws(cs) {
        var i :| 0 <= i < |cs| && cs[i].throws;
        assert cs[1..][i - 1].throws;
        var j :| 0 <= j < |rest| && rest[j].throws;
        assert UpToThrow(cs)[j + 1].throws;
      }
    } else if cs != [] {
      assert UpToThrow(cs)[0].throws && cs[0].throws;
    }
  }

  lemma ThrowsConcat(a: seq<Callback>, b: seq<Callback>)
    ensures Throws(a + b) <==> Throws(a) || Throws(b)
  {
    if Throws(a) {
      var i :| 0 <= i < |a| && a[i].throws;
      assert (a + b)[i].throws;
    }
    if Throws(b) {
      var i :| 0 <= i < |b| && b[i].throws;
      assert (a + b)[|a| + i].throws;
    }
  }

  /** A deferred is stuck if and only if a callback that has run threw. */
  lemma {:induction false} StuckIffThrown(program: seq<Action>)
    ensures var p := ApplyAll(Waiting([], []), program); p.Stuck? <==> !p.Waiting? && Throws(p.ran)
    decreases |program|
  {
    if program != [] {
      var before, a := program[..|program| - 1], program[|program| - 1];
      assert program == before + [a];
      StuckIffThrown(before);
      ApplyAllSnoc(Waiting([], []), before, a);
      var p := ApplyAll(Waiting([], []), before);
      if !p.Stuck? && (if a.Fire? then p.Waiting? else p.Over? && p.winner == a.kind) {
        var ran, queue := if p.Over? then p.ran else [], if a.Add? then a.callbacks else Queue(p, a.kind);
        var order := Drain(a.kind, queue);
        CutThrows(order);
        ThrowsConcat(ran, order);
        ThrowsConcat(ran, UpToThrow(order));
      }
    }
  }

  predicate Quiet(c: Callback) {
    !c.throws && QuietScript(c.script)
  }

  predicate QuietScript(script: seq<Action>) {
    script == [] ||
    ((match script[0] case Add(_, cs) => AllQuiet(cs) case Fire(_, _) => true) && QuietScript(script[1..]))
  }

  predicate AllQuiet(cs: seq<Callback>) {
    cs == [] || (Quiet(cs[0]) && AllQuiet(cs[1..]))
  }

  lemma {:induction false} AllQuietConcat(a: seq<Callback>, b: seq<Callback>)
    ensures AllQuiet(a + b) <==> AllQuiet(a) && AllQuiet(b)
  {
    if a == [] {
      assert a + b == b;
    } else {
      AllQuietConcat(a[1..], b);
      assert (a + b)[1..] == a[1..] + b;
    }
  }

  lemma {:induction false} QuietAdditions(kind: Kind, script: seq<Action>)
    requires QuietScript(script)
    ensures AllQuiet(Additions(kind, script))
  {
    if script != [] {
      QuietAdditions(kind, script[1..]);
      if script[0].Add? {
        AllQuietConcat(script[0].callbacks, Additions(kind, script[1..]));
      }
    }
  }

  /** Callbacks that neither throw nor add any that do run off without a throw. */
  lemma {:induction false} QuietDrain(kind: Kind, queue: seq<Callback>)
    requires AllQuiet(queue)
    ensures !Throws(Drain(kind, queue))
    decreases Work(queue)
  {
    if queue != [] {
      var c, tail, adds := queue[0], queue[1..], Additions(kind, queue[0].script);
      WorkConcat(tail, adds);
      assert Work(queue) == Size(c) + Work(tail);
      QuietAdditions(kind, c.script);
      AllQuietConcat(tail, adds);
      QuietDrain(kind, tail + adds);
      ThrowsConcat([c], Drain(kind, tail + adds));
    }
  }

  /** Calls that only add callbacks which cannot throw. */
  predicate QuietAdds(program: seq<Action>) {
    QuietScript(program) && forall i :: 0 <= i < |program| ==> program[i].Add?
  }

  lemma {:induction false} QuietAddsKeep(p: Promise, program: seq<Action>)
    requires QuietAdds(program) && !p.Stuck?
    ensures !ApplyAll(p, program).Stuck?
    decreases |program|
  {
    if program != [] {
      if p.Over? && p.winner == program[0].kind {
        QuietDrain(p.winner, program[0].callbacks);
      }
      QuietAddsKeep(Apply(p, program[0]), program[1..]);
    }
  }

  lemma {:induction false} ApplyAllConcat(p: Promise, first: seq<Action>, second: seq<Action>)
    ensures ApplyAll(p, first + second) == ApplyAll(ApplyAll(p, first), second)
    decreases |second|
  {
    if second == [] {
      assert first + second == first;
    } else {
      var start, last := second[..|second| - 1], second[|second| - 1];
      ApplyAllConcat(p, first, start);
      ApplyAllSnoc(p, first + start, last);
      ApplyAllSnoc(ApplyAll(p, first), start, last);
      Assoc(first, start, [last]);
      assert start + [last] == second;
    }
  }

  lemma StuckForgets(p: Promise, program: seq<Action>)
    requires p.Stuck? && ExactlyOnce(p, program)
    ensures var more := [Add(p.winner, [Callback(0, [], false)])];
            QuietAdds(more) && ApplyAll(p, more) == p && !ExactlyOnce(p, program + more)
  {
    var c := Callback(0, [], false);
    var more := [Add(p.winner, [c])];
    assert Quiet(c) && AllQuiet([c]) by {
      assert [c][1..] == [];
    }
    assert more[1..] == [] && QuietScript(more[1..]) && ApplyAll(p, more) == Apply(p, more[0]);
    AdditionsSnoc(p.winner, program, more[0]);
    assert multiset(Additions(p.winner, program) + [c]) == multiset(Additions(p.winner, program)) + multiset{c};
  }

  /** The promise that each callback runs exactly once can be relied on, whatever harmless callbacks
      are added from now on, if and only if no callback that has run threw. */
  lemma ThrowDecides(program: seq<Action>)
    ensures var p := ApplyAll(Waiting([], []), program);
            !p.Stuck? <==>
            forall more :: QuietAdds(more) ==> ExactlyOnce(ApplyAll(p, more), program + more)
  {
    var p := ApplyAll(Waiting([], []), program);
    if p.Stuck? {
      assert QuietAdds([]) && program + [] == program && ApplyAll(p, []) == p;
      if ExactlyOnce(p, program) {
        StuckForgets(p, program);
      }
    } else {
      forall more | QuietAdds(more)
        ensures ExactlyOnce(ApplyAll(p, more), program + more)
      {
        QuietAddsKeep(p, more);
        ApplyAllConcat(Waiting([], []), program, more);
        RunExactlyOnce(program + more);
      }
    }
  }

  /** Of two callbacks, the first of which throws, the second never runs. */
  lemma NeverRun(first: Callback, second: Callback, data: Data)
    requires first.throws && first.script == []
    ensures ApplyAll(Waiting([], []), [Add(DoneList, [first, second]), Fire(DoneList, data)]) ==
            Stuck(DoneList, data, [first])
  {
    var program := [Add(DoneList, [first, second]), Fire(DoneList, data)];
    var queue := [first, second];
    var order := Drain(DoneList, queue);
    assert queue[1..] + Additions(DoneList, first.script) == [second];
    WorkConcat(queue[1..], []);
    assert order == [first] + Drain(DoneList, [second]);
    assert order[0].throws && UpToThrow(order) == [first];
    assert [] + queue == queue;
    var p := Waiting(queue, []);
    ApplyAllSnoc(Waiting([], []), [], program[0]);
    assert [] + [program[0]] == [program[0]] && Apply(Waiting([], []), program[0]) == p;
    ApplyAllSnoc(Waiting([], []), [program[0]], program[1]);
    assert [program[0]] + [program[1]] == program;
    assert Apply(p, program[1]) == Stuck(DoneList, data, [] + [first]) && [] + [first] == [first];
  }

  // ---------- settling ----------

  function FirstFire(program: seq<Action>): (r: Option<Action>)
    ensures r.Some? ==> r.value.Fire?
  {
    if program == [] then None else if program[0].Fire? then Some(program[0]) else FirstFire(program[1..])
  }

  /** Once settled, always settled: same winner, same data, and what has run has run. */
  lemma {:induction false} SettledForever(p: Promise, program: seq<Action>)
    requires !p.Waiting?
    ensures var q := ApplyAll(p, program);
            && !q.Waiting? && q.winner == p.winner && q.data == p.data && p.ran <= q.ran
            && (p.Stuck? ==> q == p)
    decreases |program|
  {
    if program != [] {
      SettledForever(Apply(p, program[0]), program[1..]);
    }
  }

  /** The first resolve or reject of the program decides, and no other does. */
  lemma {:induction false} FirstFireDecides(p: Promise, program: seq<Action>)
    requires p.Waiting?
    ensures var q := ApplyAll(p, program);
            match FirstFire(program)
            case None => q.Waiting?
            case Some(a) => !q.Waiting? && q.winner == a.kind && q.data == a.data
    decreases |program|
  {
    if program != [] {
      if program[0].Fire? {
        SettledForever(Apply(p, program[0]), program[1..]);
      } else {
        FirstFireDecides(Apply(p, program[0]), program[1..]);
      }
    }
  }

  // ---------- the implementation ----------

  /** The closure variables of jQuery.Callbacks("once memory"): stack is false, list becomes
      undefined when the list is disabled. */
  class Callbacks {
    const kind: Kind
    var list: Option<seq<Entry>>
    var memory: Option<Data>
    var fired: bool
    var firing: bool
    var firingIndex: nat
    var firingLength: nat
    var firingStart: nat
    /** Everything ever passed to add, and what has run with which data. */
    ghost var offered: seq<Callback>
    ghost var ran: seq<(Callback, Data)>

    constructor (kind: Kind)
      ensures this.kind == kind && Fresh()
      ensures offered == []
    {
      this.kind := kind;
      list := Some([SetState, DisableOther, LockProgress]);
      memory, fired, firing := None, false, false;
      firingIndex, firingLength, firingStart := 0, 0, 0;
      offered, ran := [], [];
      new;
      assert list.value == [SetState, DisableOther, LockProgress] + Users([]);
    }

    /** Never fired, never disabled. */
    ghost predicate Fresh()
      reads this
    {
      && list == Some([SetState, DisableOther, LockProgress] + Users(offered))
      && memory == None && !fired && !firing && firingStart == 0 && ran == []
    }

    ghost predicate Dead()
      reads this
    {
      list == None && memory == None && !fired && !firing && ran == []
    }

    /** Fired, and at rest. */
    ghost predicate Idle(data: Data)
      reads this
    {
      && list == Some([]) && memory == Some(data) && fired && !firing
      && firingStart == 0 && ran == With(offered, data)
    }

    /** Between two callbacks of the users: the entries from firingIndex on are the callbacks that
        were offered and have not run. */
    ghost predicate Draining(data: Data)
      reads this
    {
      && list.Some? && memory == Some(data) && fired && firing && firingStart == 0
      && firingIndex <= firingLength == |list.value|
      && |ran| <= |offered| && ran == With(offered[..|ran|], data)
      && list.value[firingIndex..] == Users(offered[|ran|..])
    }

    /** A user's callback at firingIndex is running: the ones after it are those that were offered
        and have not run. */
    ghost predicate Running(data: Data)
      reads this
    {
      && list.Some? && memory == Some(data) && fired && firing && firingStart == 0
      && firingIndex < firingLength == |list.value|
      && |ran| <= |offered| && ran == With(offered[..|ran|], data)
      && list.value[firingIndex + 1..] == Users(offered[|ran|..])
    }

    method Disable()
      modifies this
      ensures list == None && memory == None
      ensures unchanged(`fired) && unchanged(`firing) && unchanged(`offered) && unchanged(`ran)
      ensures unchanged(`firingIndex) && unchanged(`firingLength) && unchanged(`firingStart)
    {
      list, memory := None, None;
    }
  }

  function Users(cs: seq<Callback>): (es: seq<Entry>)
    ensures |es| == |cs| && forall i :: 0 <= i < |cs| ==> es[i] == User(cs[i])
  {
    seq(|cs|, i requires 0 <= i < |cs| => User(cs[i]))
  }

  function With(cs: seq<Callback>, data: Data): (rs: seq<(Callback, Data)>)
    ensures |rs| == |cs| && forall i :: 0 <= i < |cs| ==> rs[i] == (cs[i], data)
  {
    seq(|cs|, i requires 0 <= i < |cs| => (cs[i], data))
  }

  lemma UsersConcat(a: seq<Callback>, b: seq<Callback>)
    ensures Users(a + b) == Users(a) + Users(b)
  {
  }

  /** Appending to a list and to its history keeps the entries still to run in step. */
  lemma StillToRun(entries: seq<Entry>, offered: seq<Callback>, k: nat, n: nat, cs: seq<Callback>)
    requires k <= |entries| && n <= |offered| && entries[k..] == Users(offered[n..])
    ensures (offered + cs)[..n] == offered[..n]
    ensures (entries + Users(cs))[k..] == Users((offered + cs)[n..])
  {
    assert (offered + cs)[n..] == offered[n..] + cs;
    UsersConcat(offered[n..], cs);
    assert (entries + Users(cs))[k..] == entries[k..] + Users(cs);
  }

  lemma AllStillToRun(entries: seq<Entry>, offered: seq<Callback>, cs: seq<Callback>)
    ensures entries == [] ==> entries + Users(cs) == Users(cs)
    ensures (offered + cs)[..|offered|] == offered && (offered + cs)[|offered|..] == cs
    ensures var own := [SetState, DisableOther, LockProgress];
            entries == own + Users(offered) ==> entries + Users(cs) == own + Users(offered + cs)
  {
    UsersConcat(offered, cs);
    var own := [SetState, DisableOther, LockProgress];
    assert own + Users(offered) + Users(cs) == own + (Users(offered) + Users(cs));
  }

  /** One callback run: the rest of the queue grows at its end, and the total work shrinks. */
  lemma DrainStep(kind: Kind, offered: seq<Callback>, n: nat)
    requires n < |offered|
    ensures var later := offered + Additions(kind, offered[n].script);
            && later[..n + 1] + Drain(kind, later[n + 1..]) == offered[..n] + Drain(kind, offered[n..])
            && Work(later[n + 1..]) < Work(offered[n..])
  {
    var adds := Additions(kind, offered[n].script);
    var later := offered + adds;
    assert later[n + 1..] == offered[n..][1..] + adds;
    WorkConcat(offered[n..][1..], adds);
    assert later[..n + 1] == offered[..n] + [offered[n]];
  }

  lemma {:induction false} CutAt(cs: seq<Callback>, n: nat)
    requires n < |cs| && cs[n].throws && !Throws(cs[..n])
    ensures UpToThrow(cs) == cs[..n + 1]
  {
    if n > 0 {
      assert !cs[..n][0].throws;
      assert cs[1..][..n - 1] == cs[..n][1..];
      assert forall i :: 0 <= i < n - 1 ==> cs[..n][1..][i] == cs[..n][i + 1];
      CutAt(cs[1..], n - 1);
      assert cs[..n + 1] == [cs[0]] + cs[1..][..n];
    }
  }

  lemma QuietStep(cs: seq<Callback>, n: nat)
    requires n < |cs| && !cs[n].throws && !Throws(cs[..n])
    ensures !Throws(cs[..n + 1])
  {
    assert forall i :: 0 <= i < n ==> cs[..n + 1][i] == cs[..n][i];
  }

  /** The callback at n in the order of the batch decides whether it goes on. */
  lemma BatchStep(kind: Kind, data: Data, earlier: seq<Callback>, queue: seq<Callback>, n: nat)
    requires var order := Drain(kind, queue); n < |order| && !Throws(order[..n])
    ensures var order := Drain(kind, queue);
            && (!order[n].throws ==> !Throws(order[..n + 1]))
            && (order[n].throws ==> RunOff(kind, data, earlier, queue) == Stuck(kind, data, earlier + order[..n + 1]))
  {
    var order := Drain(kind, queue);
    if order[n].throws {
      CutAt(order, n);
      assert order[..n + 1][n].throws;
      CutThrows(order);
    } else {
      QuietStep(order, n);
    }
  }

  lemma SameStart(a: seq<Callback>, later: seq<Callback>, earlier: seq<Callback>, order: seq<Callback>)
    requires a + later == earlier + order && |earlier| <= |a|
    ensures |a| - |earlier| <= |order| && a == earlier + order[..|a| - |earlier|]
    ensures |earlier| < |a| ==> a[|a| - 1] == order[|a| - |earlier| - 1]
  {
    assert a == (a + later)[..|a|] == (earlier + order)[..|a|];
  }

  /** Unless one throws, in the end the callbacks in the queue and all that they add will have run
      after the earlier ones; of those, n have been run so far, and none has thrown. */
  ghost predicate OnCourse(kind: Kind, offered: seq<Callback>, n: nat, earlier: seq<Callback>, queue: seq<Callback>) {
    && |earlier| <= n <= |offered|
    && offered[..n] + Drain(kind, offered[n..]) == earlier + Drain(kind, queue)
    && n - |earlier| <= |Drain(kind, queue)| && !Throws(Drain(kind, queue)[..n - |earlier|])
  }

  lemma CourseStep(kind: Kind, data: Data, offered: seq<Callback>, n: nat,
                   earlier: seq<Callback>, queue: seq<Callback>)
    requires n < |offered| && OnCourse(kind, offered, n, earlier, queue)
    ensures var later := offered + Additions(kind, offered[n].script);
            && Work(later[n + 1..]) < Work(offered[n..])
            && (!offered[n].throws ==> OnCourse(kind, later, n + 1, earlier, queue))
            && (offered[n].throws ==> RunOff(kind, data, earlier, queue) == Stuck(kind, data, later[..n + 1]))
  {
    var later := offered + Additions(kind, offered[n].script);
    DrainStep(kind, offered, n);
    SameStart(later[..n + 1], Drain(kind, later[n + 1..]), earlier, Drain(kind, queue));
    BatchStep(kind, data, earlier, queue, n - |earlier|);
  }

  class DeferredObject {
    const done: Callbacks
    const fail: Callbacks
    var state: State
    var progressLocked: bool

    constructor ()
      ensures Valid() && !Firing() && fresh(done) && fresh(fail)
      ensures Meaning() == Waiting([], [])
    {
      done := new Callbacks(DoneList);
      fail := new Callbacks(FailList);
      state, progressLocked := Pending, false;
    }

    function List(kind: Kind): Callbacks {
      if kind == DoneList then done else fail
    }

    function Winner(): Kind
      reads this
    {
      if state.Settled? then state.kind else DoneList
    }

    ghost predicate Firing()
      reads this, done, fail
    {
      done.firing || fail.firing
    }

    /** Holds whenever the user's code is in control, inside a callback or outside. */
    ghost predicate Valid()
      reads this, done, fail
    {
      && done != fail && done.kind == DoneList && fail.kind == FailList
      && (progressLocked <==> state.Settled?)
      && match state
         case Pending => done.Fresh() && fail.Fresh()
         case Settled(w) =>
           && List(w.Other()).Dead()
           && List(w).memory.Some?
           && (if List(w).firing then List(w).Running(List(w).memory.value) else List(w).Idle(List(w).memory.value))
    }

    ghost function Meaning(): Promise
      requires Valid()
      reads this, done, fail
    {
      match state
      case Pending => Waiting(done.offered, fail.offered)
      case Settled(w) =>
        var data, ran := List(w).memory.value, List(w).offered[..|List(w).ran|];
        if List(w).firing then Stuck(w, data, ran) else Over(w, data, ran)
    }
 
    /** While a list is being fired, whatever the running callback does only appends to it. */
    twostate predicate OnlyAppended(cs: seq<Callback>)
      reads this, done, fail
    {
      && state == old(state) && Firing()
      && var l := List(Winner());
         && l.firing && l.firingIndex == old(l.firingIndex) && l.memory == old(l.memory) && l.ran == old(l.ran)
         && l.offered == old(l.offered) + cs
    }

    /** A whole program of calls on a new deferred, with everything its callbacks do; what they throw
        is caught around each call. */
    method RunProgram(program: seq<Action>)
      requires Valid() && !Firing() && Meaning() == Waiting([], [])
      modifies this, done, fail
      ensures Valid()
      ensures Meaning() == ApplyAll(Waiting([], []), program)
      ensures state.Settled? ==>
                && List(Winner()).ran == With(Meaning().ran, List(Winner()).memory.value)
                && List(Winner().Other()).ran == []
    {
      for i := 0 to |program|
        invariant Valid() && Meaning() == ApplyAll(Waiting([], []), program[..i])
      {
        ApplyAllSnoc(Waiting([], []), program[..i], program[i]);
        assert program[..i] + [program[i]] == program[..i + 1];
        var _ := Perform(program[i]);
      }
      assert program[..|program|] == program;
    }

    /** A callback of l is running. */
    ghost predicate InCallback(l: Callbacks, data: Data)
      reads this, l, done, fail
    {
      && done != fail && done.kind == DoneList && fail.kind == FailList && (l == done || l == fail)
      && state == Settled(l.kind) && progressLocked && List(l.kind.Other()).Dead() && l.Running(data)
    }

    method PerformInCallback(l: Callbacks, a: Action, ghost data: Data)
      requires InCallback(l, data)
      modifies this, done, fail
      ensures InCallback(l, data) && l.firingIndex == old(l.firingIndex) && l.ran == old(l.ran)
      ensures l.offered == old(l.offered) + Additions(l.kind, [a])
      decreases 0, 7
    {
      var _ := Perform(a);
    }

    method RunScript(l: Callbacks, script: seq<Action>, ghost data: Data)
      requires InCallback(l, data)
      modifies this, done, fail
      ensures InCallback(l, data) && l.firingIndex == old(l.firingIndex) && l.ran == old(l.ran)
      ensures l.offered == old(l.offered) + Additions(l.kind, script)
      decreases 0, 8
    {
      for i := 0 to |script|
        invariant InCallback(l, data) && l.firingIndex == old(l.firingIndex) && l.ran == old(l.ran)
        invariant l.offered == old(l.offered) + Additions(l.kind, script[..i])
      {
        AdditionsOne(l.kind, script[..i], script[i]);
        assert script[..i] + [script[i]] == script[..i + 1];
        ghost var soFar := l.offered;
        PerformInCallback(l, script[i], data);
        assert l.offered == soFar + Additions(l.kind, [script[i]]);
        Assoc(old(l.offered), Additions(l.kind, script[..i]), Additions(l.kind, [script[i]]));
      }
      assert script[..|script|] == script;
    }

    /** One call by the user's code; threw: an exception of a callback comes out of it. */
    method Perform(a: Action) returns (threw: bool)
      requires Valid()
      modifies this, done, fail
      ensures Valid() && Meaning() == Apply(old(Meaning()), a)
      ensures threw <==> Firing() && !old(Firing())
      ensures old(Firing()) ==> OnlyAppended(Additions(Winner(), [a]))
      decreases if Firing() then 0 else 1, 6
    {
      match a
      case Add(kind, cs) => threw := AddTo(List(kind), cs);
      case Fire(kind, data) => threw := FireWith(List(kind), data);
    }

    /** add: push, then extend the batch in progress, or fire at once with the remembered data. */
    method AddTo(l: Callbacks, cs: seq<Callback>) returns (threw: bool)
      requires Valid() && (l == done || l == fail)
      modifies this, done, fail
      ensures Valid() && Meaning() == Apply(old(Meaning()), Add(l.kind, cs))
      ensures threw <==> Firing() && !old(Firing())
      ensures old(Firing()) ==> OnlyAppended(if l.kind == Winner() then cs else [])
      decreases if Firing() then 0 else 1, 5
    {
      threw := false;
      if l.list.Some? {
        if l.firing {
          AddToBatch(l, cs);
        } else {
          threw := AddAtRest(l, cs);
        }
      } else {
        l.offered := l.offered + cs;
      }
    }

    method AddToBatch(l: Callbacks, cs: seq<Callback>)
      requires Valid() && (l == done || l == fail) && l.list.Some? && l.firing
      modifies l
      ensures Valid() && OnlyAppended(cs) && l.kind == Winner() && Meaning() == old(Meaning())
    {
      l.offered := l.offered + cs;
      l.list := Some(l.list.value + Users(cs));
      l.firingLength := |l.list.value|;
      StillToRun(old(l.list.value), old(l.offered), l.firingIndex + 1, |l.ran|, cs);
      assert l.Running(l.memory.value);
    }

    method AddAtRest(l: Callbacks, cs: seq<Callback>) returns (threw: bool)
      requires Valid() && (l == done || l == fail) && l.list.Some? && !l.firing
      modifies this, done, fail
      ensures Valid() && Meaning() == Apply(old(Meaning()), Add(l.kind, cs))
      ensures threw <==> Firing()
      decreases 1, 4
    {
      ghost var was := Meaning();
      var start := |l.list.value|;
      l.offered := l.offered + cs;
      l.list := Some(l.list.value + Users(cs));
      AllStillToRun(old(l.list.value), old(l.offered), cs);
      if l.memory.Some? {
        l.firingStart := start;
        assert was == Over(l.kind, l.memory.value, l.offered[..|l.ran|]);
        threw := FireList(l, l.memory.value, cs);
      } else {
        assert l.Fresh();
        threw := false;
      }
    }

    /** fireWith: only the first call on an enabled list has an effect. */
    method FireWith(l: Callbacks, data: Data) returns (threw: bool)
      requires Valid() && (l == done || l == fail)
      modifies this, done, fail
      ensures Valid() && Meaning() == Apply(old(Meaning()), Fire(l.kind, data))
      ensures threw <==> Firing() && !old(Firing())
      ensures old(Firing()) ==> OnlyAppended([])
      decreases if Firing() then 0 else 1, 4
    {
      threw := false;
      if l.list.Some? && !l.fired {
        threw := FireList(l, data, l.offered);
      }
    }

    /** One call of a user's callback from the firing loop. */
    method RunCallback(l: Callbacks, c: Callback, data: Data) returns (threw: bool)
      requires done != fail && done.kind == DoneList && fail.kind == FailList
      requires l == done || l == fail
      requires state == Settled(l.kind) && progressLocked && List(l.kind.Other()).Dead() && l.Draining(data)
      requires l.firingIndex < l.firingLength && l.list.value[l.firingIndex] == User(c)
      modifies this, done, fail
      ensures state == Settled(l.kind) && progressLocked && List(l.kind.Other()).Dead() && l.Running(data)
      ensures l.firingIndex == old(l.firingIndex)
      ensures l.ran == old(l.ran) + [(c, data)] && c == old(l.offered[|l.ran|])
      ensures l.offered == old(l.offered) + Additions(l.kind, c.script) && threw == c.throws
      decreases 1, 0
    {
      assert l.list.value[l.firingIndex..][0] == Users(l.offered[|l.ran|..])[0] == User(l.offered[|l.ran|]);
      assert l.list.value[l.firingIndex + 1..] == l.list.value[l.firingIndex..][1..];
      assert Users(l.offered[|l.ran|..])[1..] == Users(l.offered[|l.ran| + 1..]);
      assert l.offered[..|l.ran| + 1] == l.offered[..|l.ran|] + [c];
      l.ran := l.ran + [(c, data)];
      RunScript(l, c.script, data);
      threw := c.throws;
    }

    /** The batch is still at the entries of Deferred itself. */
    ghost predicate InOwnEntries(l: Callbacks, data: Data, queue: seq<Callback>)
      reads this, l, done, fail
    {
      && l.memory == Some(data) && l.fired && l.firing && l.firingStart == 0
      && l.list == Some([SetState, DisableOther, LockProgress] + Users(queue))
      && l.firingIndex < 3 && l.firingLength == |l.list.value|
      && l.offered == queue && l.ran == []
      && state == (if l.firingIndex == 0 then Pending else Settled(l.kind)) && !progressLocked
      && (if l.firingIndex < 2 then List(l.kind.Other()).Fresh() else List(l.kind.Other()).Dead())
    }

    /** The batch is at the users' callbacks. */
    ghost predicate InUserEntries(l: Callbacks, data: Data, earlier: seq<Callback>, queue: seq<Callback>)
      reads this, l, done, fail
    {
      && state == Settled(l.kind) && progressLocked && List(l.kind.Other()).Dead() && l.Draining(data)
      && OnCourse(l.kind, l.offered, |l.ran|, earlier, queue)
    }

    /** The entries that Deferred adds to each list: settle, kill the other list, lock the third. */
    method FireOwnEntry(l: Callbacks, data: Data, ghost queue: seq<Callback>)
      requires done != fail && done.kind == DoneList && fail.kind == FailList
      requires l == done || l == fail
      requires InOwnEntries(l, data, queue)
      modifies this, done, fail
      ensures l.firingIndex == old(l.firingIndex) + 1
      ensures l.firingIndex < 3 ==> InOwnEntries(l, data, queue)
      ensures l.firingIndex == 3 ==> InUserEntries(l, data, [], queue)
    {
      assert l.list.value[3..] == Users(queue);
      match l.list.value[l.firingIndex] {
        case SetState => state := Settled(l.kind);
        case DisableOther => List(l.kind.Other()).Disable();
        case LockProgress => progressLocked := true;
      }
      l.firingIndex := l.firingIndex + 1;
      assert l.offered[..|l.ran|] == [] && l.offered[0..] == queue;
    }

    /** The next callback of the users; the index stays at one that throws. */
    method FireUserEntry(l: Callbacks, data: Data, ghost earlier: seq<Callback>, ghost queue: seq<Callback>)
      returns (threw: bool)
      requires done != fail && done.kind == DoneList && fail.kind == FailList
      requires l == done || l == fail
      requires InUserEntries(l, data, earlier, queue) && l.firingIndex < l.firingLength
      modifies this, done, fail
      ensures !threw ==> InUserEntries(l, data, earlier, queue)
      ensures !threw ==> Work(l.offered[|l.ran|..]) < old(Work(l.offered[|l.ran|..]))
      ensures threw ==> InCallback(l, data)
      ensures threw ==> RunOff(l.kind, data, earlier, queue) == Stuck(l.kind, data, l.offered[..|l.ran|])
      decreases 1, 1
    {
      assert l.list.value[l.firingIndex] == l.list.value[l.firingIndex..][0] == Users(l.offered[|l.ran|..])[0];
      CourseStep(l.kind, data, l.offered, |l.ran|, earlier, queue);
      threw := RunCallback(l, l.list.value[l.firingIndex].callback, data);
      if !threw {
        l.firingIndex := l.firingIndex + 1;
      }
    }

    /** The loop of fire, over a batch that grows. */
    method RunBatch(l: Callbacks, data: Data, ghost earlier: seq<Callback>, ghost queue: seq<Callback>)
      returns (threw: bool)
      requires done != fail && done.kind == DoneList && fail.kind == FailList
      requires l == done || l == fail
      requires (InOwnEntries(l, data, queue) && earlier == []) || InUserEntries(l, data, earlier, queue)
      modifies this, done, fail
      ensures !threw ==> InUserEntries(l, data, earlier, queue) && l.firingIndex == l.firingLength
      ensures threw ==> InCallback(l, data)
      ensures threw ==> RunOff(l.kind, data, earlier, queue) == Stuck(l.kind, data, l.offered[..|l.ran|])
      decreases 1, 2
    {
      ghost var own := InOwnEntries(l, data, queue);
      while l.list.Some? && l.firingIndex < l.firingLength
        invariant own ==> InOwnEntries(l, data, queue) && earlier == []
        invariant !own ==> InUserEntries(l, data, earlier, queue)
        decreases own, if own then 3 - l.firingIndex else Work(l.offered[|l.ran|..])
      {
        if l.list.value[l.firingIndex].User? {
          threw := FireUserEntry(l, data, earlier, queue);
          if threw {
            return;
          }
        } else {
          FireOwnEntry(l, data, queue);
          own := l.firingIndex < 3;
        }
      }
      threw := false;
    }

    /** fire: run the batch from firingStart on, whatever the callbacks append to it included.  An
        exception leaves the list as it is then. */
    method FireList(l: Callbacks, data: Data, ghost queue: seq<Callback>) returns (threw: bool)
      requires done != fail && done.kind == DoneList && fail.kind == FailList
      requires l == done || l == fail
      requires !Firing() && l.list.Some? && l.firingStart == 0
      requires progressLocked <==> state.Settled?
      requires state == Pending ==> done.Fresh() && fail.Fresh() && queue == l.offered
      requires state.Settled? ==>
                 && state.kind == l.kind && List(l.kind.Other()).Dead()
                 && l.list == Some(Users(queue))
                 && |l.ran| <= |l.offered| && l.ran == With(l.offered[..|l.ran|], data) && l.offered[|l.ran|..] == queue
      modifies this, done, fail
      ensures Valid() && state == Settled(l.kind) && (threw <==> Firing())
      ensures Meaning() == RunOff(l.kind, data, old(l.offered[..|l.ran|]), queue)
      decreases 1, 3
    {
      ghost var earlier := l.offered[..|l.ran|];
      BeginBatch(l, data, queue);
      threw := RunBatch(l, data, earlier, queue);
      if !threw {
        EndBatch(l, data, earlier, queue);
      }
    }

    method BeginBatch(l: Callbacks, data: Data, ghost queue: seq<Callback>)
      requires done != fail && done.kind == DoneList && fail.kind == FailList
      requires l == done || l == fail
      requires !Firing() && l.list.Some? && l.firingStart == 0
      requires progressLocked <==> state.Settled?
      requires state == Pending ==> done.Fresh() && fail.Fresh() && queue == l.offered
      requires state.Settled? ==>
                 && state.kind == l.kind && List(l.kind.Other()).Dead()
                 && l.list == Some(Users(queue))
                 && |l.ran| <= |l.offered| && l.ran == With(l.offered[..|l.ran|], data) && l.offered[|l.ran|..] == queue
      modifies l
      ensures unchanged(l`offered) && unchanged(l`ran)
      ensures state == Pending ==> InOwnEntries(l, data, queue)
      ensures state.Settled? ==> InUserEntries(l, data, l.offered[..|l.ran|], queue)
    {
      l.memory := Some(data);
      l.fired := true;
      l.firingIndex := l.firingStart;
      l.firingStart := 0;
      l.firingLength := |l.list.value|;
      l.firing := true;
    }

    method EndBatch(l: Callbacks, data: Data, ghost earlier: seq<Callback>, ghost queue: seq<Callback>)
      requires done != fail && done.kind == DoneList && fail.kind == FailList
      requires l == done || l == fail
      requires InUserEntries(l, data, earlier, queue) && l.firingIndex == l.firingLength
      modifies l
      ensures Valid() && !Firing() && l.Idle(data)
      ensures Meaning() == RunOff(l.kind, data, earlier, queue)
    {
      assert |Users(l.offered[|l.ran|..])| == 0;
      assert l.offered[|l.ran|..] == [] && l.offered[..|l.ran|] == l.offered;
      ghost var order := Drain(l.kind, queue);
      assert order[..|order|] == order && l.offered + [] == l.offered;
      l.firing := false;
      if l.list.Some? {
        assert l.memory.Some?; // so the list is emptied, and not disabled
        l.list := Some([]);
      }
    }
  }
}
