/** The DNS latency test: a state machine that sends one query for each host, first the valid names
    and then the invalid ones, and takes a sample from the next reply or timeout, stale or not. */
module DnsTest {
  import opened Common
  import opened LatencyStats

  type Host = string

  datatype Stim = BeginTest | PacketReceived | StopTest | Timeout

  datatype MachineState = Idle | PacketSent

  datatype Handler = OnBeginTest | OnPacketReceived | OnTimeout

  /** The edges of the machine; any other stimulus is ignored. */
  function Edge(state: MachineState, stim: Stim): Option<Handler> {
    match (state, stim)
    case (Idle, BeginTest) => Some(OnBeginTest)
    case (PacketSent, PacketReceived) => Some(OnPacketReceived)
    case (PacketSent, Timeout) => Some(OnTimeout)
    case _ => None
  }

  /** A stimulus, and the time since the last query, which only a reply uses. */
  datatype Input = Input(stim: Stim, elapsed: int)

  /** What the observer is told. The deviations are squared; what the C++ gets from a division by zero
      is missing. */
  datatype TestResults = TestResults(
    validAverage: Option<real>,
    validDeviation: Option<real>,
    invalidAverage: Option<real>,
    invalidDeviation: Option<real>,
    lossRatio: Option<real>
  )

  // ---------- what a test reports ----------

  function Ratio(lost: nat, total: nat): Option<real> {
    if total == 0 then None else Some(lost as real / total as real)
  }

  /** The report for the samples of the valid and of the invalid hosts. */
  function Report(valid: seq<int>, invalid: seq<int>): TestResults {
    TestResults(MeanOf(valid), VarianceOf(valid), MeanOf(invalid), VarianceOf(invalid),
                Ratio(LostCount(valid) + LostCount(invalid), |valid| + |invalid|))
  }

  /** What is said about one half: the average times the number of samples is their sum, and the
      deviation times one less is the sum of the squared distances from it; each is missing exactly if
      there are too few samples. */
  predicate HalfReported(average: Option<real>, deviation: Option<real>, received: seq<int>) {
    && (average.None? <==> received == [])
    && (average.Some? ==> Times(average.value, |received|) == Sum(received) as real)
    && (deviation.None? <==> |received| < 2)
    && (average.Some? && deviation.Some? ==>
        Times(deviation.value, |received| - 1) == Spread(received, average.value))
  }

  /** What a report says about the samples of the valid and of the invalid hosts. */
  predicate Reports(r: TestResults, valid: seq<int>, invalid: seq<int>) {
    && HalfReported(r.validAverage, r.validDeviation, Received(valid))
    && HalfReported(r.invalidAverage, r.invalidDeviation, Received(invalid))
    && (r.lossRatio.None? <==> valid == [] && invalid == [])
    && (r.lossRatio.Some? ==>
        Times(r.lossRatio.value, |valid| + |invalid|) == multiset(valid + invalid)[-1] as real)
  }

  lemma AverageTimes(r: seq<int>)
    requires r != []
    ensures Times(Mean(r), |r|) == Sum(r) as real
  {
    MeanTimesCount(r);
    TimesIsProduct(Mean(r), |r|);
  }

  lemma DeviationTimes(r: seq<int>)
    requires |r| >= 2
    ensures Times(Variance(r), |r| - 1) == Spread(r, Mean(r))
  {
    VarianceTimesCount(r);
    TimesIsProduct(Variance(r), |r| - 1);
  }

  lemma HalfIsReported(samples: seq<int>)
    ensures HalfReported(MeanOf(samples), VarianceOf(samples), Received(samples))
  {
    var r := Received(samples);
    if r != [] {
      AverageTimes(r);
      if |r| >= 2 {
        DeviationTimes(r);
      }
    }
  }

  lemma RatioTimes(lost: nat, total: nat, ratio: Option<real>)
    requires ratio == Ratio(lost, total)
    ensures ratio.None? <==> total == 0
    ensures ratio.Some? ==> Times(ratio.value, total) == lost as real
  {
    if total > 0 {
      Divided(ratio.value, lost as real, total as real);
      TimesIsProduct(ratio.value, total);
    }
  }

  lemma LostInBoth(valid: seq<int>, invalid: seq<int>)
    ensures LostCount(valid) + LostCount(invalid) == multiset(valid + invalid)[-1]
  {
    LostCountConcat(valid, invalid);
    ReceivedAndLost(valid + invalid, -1);
  }

  lemma RatioReported(ratio: Option<real>, lost: nat, total: nat, valid: seq<int>, invalid: seq<int>)
    requires lost == LostCount(valid) + LostCount(invalid) && total == |valid| + |invalid|
    requires ratio.None? <==> total == 0
    requires ratio.Some? ==> Times(ratio.value, total) == lost as real
    ensures ratio.None? <==> valid == [] && invalid == []
    ensures ratio.Some? ==> Times(ratio.value, |valid| + |invalid|) == multiset(valid + invalid)[-1] as real
  {
    LostInBoth(valid, invalid);
  }

  lemma ReportHalves(valid: seq<int>, invalid: seq<int>)
    ensures var r := Report(valid, invalid);
            && r.validAverage == MeanOf(valid) && r.validDeviation == VarianceOf(valid)
            && r.invalidAverage == MeanOf(invalid) && r.invalidDeviation == VarianceOf(invalid)
  {
  }

  lemma ReportReports(valid: seq<int>, invalid: seq<int>)
    ensures Reports(Report(valid, invalid), valid, invalid)
  {
    ReportHalves(valid, invalid);
    HalfIsReported(valid);
    HalfIsReported(invalid);
    var lost, total := LostCount(valid) + LostCount(invalid), |valid| + |invalid|;
    var ratio := Report(valid, invalid).lossRatio;
    RatioTimes(lost, total, ratio);
    RatioReported(ratio, lost, total, valid, invalid);
  }

  lemma ReportAdded(before: seq<TestResults>, valid: seq<int>, invalid: seq<int>, after: seq<TestResults>)
    requires after == before + [Report(valid, invalid)]
    ensures |after| == |before| + 1 && after[..|before|] == before && Reports(after[|before|], valid, invalid)
  {
    ReportReports(valid, invalid);
  }

  lemma {:induction false} LostCountConcat(a: seq<int>, b: seq<int>)
    ensures LostCount(a + b) == LostCount(a) + LostCount(b)
  {
    if b == [] {
      assert a + b == a;
    } else {
      LostCountConcat(a, b[..|b| - 1]);
      assert (a + b)[..|a + b| - 1] == a + b[..|b| - 1];
    }
  }

  /** The loss ratio is the share of lost packets, from none to all of them. */
  lemma LossRatioBounds(valid: seq<int>, invalid: seq<int>)
    requires valid != [] || invalid != []
    ensures var samples := valid + invalid;
            var ratio := Report(valid, invalid).lossRatio;
            && ratio == Ratio(LostCount(samples), |samples|) && ratio.Some?
            && 0.0 <= ratio.value <= 1.0
            && (ratio.value == 0.0 <==> LOST !in samples)
            && (ratio.value == 1.0 <==> Received(samples) == [])
  {
    var samples := valid + invalid;
    LostCountConcat(valid, invalid);
    LostOrReceived(samples);
    NoneLost(samples);
    RatioBounds(LostCount(samples), |samples|);
  }

  lemma RatioBounds(lost: nat, total: nat)
    requires lost <= total && total > 0
    ensures 0.0 <= lost as real / total as real <= 1.0
    ensures lost as real / total as real == 0.0 <==> lost == 0
    ensures lost as real / total as real == 1.0 <==> lost == total
  {
  }

  lemma {:induction false} NoneLost(samples: seq<int>)
    ensures LostCount(samples) == 0 <==> LOST !in samples
  {
    if samples != [] {
      NoneLost(samples[..|samples| - 1]);
      assert samples == samples[..|samples| - 1] + [samples[|samples| - 1]];
    }
  }

  // ---------- the samples of a sequence of stimuli ----------

  predicate Counts(i: Input) {
    i.stim == PacketReceived || i.stim == Timeout
  }

  function SampleOf(i: Input): int {
    if i.stim == Timeout then LOST else i.elapsed
  }

  /** While a query is out, every reply or timeout is a sample and everything else is ignored. */
  function Samples(inputs: seq<Input>): seq<int> {
    if inputs == [] then []
    else
      var last := inputs[|inputs| - 1];
      Samples(inputs[..|inputs| - 1]) + (if Counts(last) then [SampleOf(last)] else [])
  }

  // ---------- where a test is ----------

  /** The hosts that wait while the query for number k is out: the invalid ones join the queue only
      when the valid ones are done. */
  function Waiting(valid: seq<Host>, invalid: seq<Host>, k: nat): seq<Host>
    requires k < |valid| + |invalid|
  {
    if k < |valid| then valid[k + 1..] else (valid + invalid)[k + 1..]
  }

  /** The same, before the query for number k is taken from the queue. */
  function Before(valid: seq<Host>, invalid: seq<Host>, k: nat): seq<Host>
    requires k <= |valid| + |invalid|
  {
    if k <= |valid| then valid[k..] else (valid + invalid)[k..]
  }

  lemma TakeNext(valid: seq<Host>, invalid: seq<Host>, k: nat)
    requires k <= |valid| + |invalid|
    ensures var b := Before(valid, invalid, k);
            if b != [] then
              && k < |valid| + |invalid| && k != |valid|
              && b[0] == (valid + invalid)[k] && b[1..] == Waiting(valid, invalid, k)
            else k == |valid| || k == |valid| + |invalid|
    ensures k < |valid| + |invalid| ==> Waiting(valid, invalid, k) == Before(valid, invalid, k + 1) || k == |valid|
    ensures k == |valid| && invalid != [] ==>
      invalid[0] == (valid + invalid)[k] && invalid[1..] == Waiting(valid, invalid, k)
  {
    if k < |valid| {
      assert valid[k..][1..] == valid[k + 1..];
    } else if k < |valid| + |invalid| {
      assert (valid + invalid)[k..][1..] == (valid + invalid)[k + 1..];
      assert k == |valid| ==> invalid[1..] == (valid + invalid)[k + 1..];
    }
  }

  /** The two vectors of samples. */
  function FirstHalf(taken: seq<int>, v: nat): seq<int> {
    if |taken| <= v then taken else taken[..v]
  }

  function SecondHalf(taken: seq<int>, v: nat): seq<int> {
    if |taken| <= v then [] else taken[v..]
  }

  lemma HalvesGrow(taken: seq<int>, v: nat, x: int)
    ensures FirstHalf(taken, v) + SecondHalf(taken, v) == taken
    ensures |taken| < v ==> FirstHalf(taken + [x], v) == FirstHalf(taken, v) + [x] && SecondHalf(taken + [x], v) == []
    ensures |taken| >= v ==> FirstHalf(taken + [x], v) == FirstHalf(taken, v)
    ensures |taken| >= v ==> SecondHalf(taken + [x], v) == SecondHalf(taken, v) + [x]
  {
    if |taken| >= v {
      assert (taken + [x])[v..] == taken[v..] + [x];
      assert (taken + [x])[..v] == taken[..v];
    }
  }

  // ---------- the machine on values ----------

  /** Everything the test keeps: its configuration, its own variables, what the observer was told, and
      for the test in progress its hosts, those asked for, and the samples taken. */
  datatype Test = Test(
    confValid: seq<Host>,
    confInvalid: seq<Host>,
    state: MachineState,
    packetsSent: nat,
    validTimes: seq<int>,
    invalidTimes: seq<int>,
    timesInvalid: bool,
    toResolve: Host,
    waiting: seq<Host>,
    testingInvalid: bool,
    reported: seq<TestResults>,
    valid: seq<Host>,
    invalid: seq<Host>,
    sent: seq<Host>,
    taken: seq<int>
  )

  /** The next host is taken from the queue and asked for. */
  function AskNext(t: Test): Test
    requires t.waiting != []
  {
    t.(toResolve := t.waiting[0], waiting := t.waiting[1..], packetsSent := t.packetsSent + 1,
       sent := t.sent + [t.waiting[0]])
  }

  function Cleared(t: Test): Test {
    t.(waiting := t.waiting + t.confValid, packetsSent := 0, testingInvalid := false, timesInvalid := false,
       validTimes := [], invalidTimes := [], valid := t.confValid, invalid := t.confInvalid, sent := [], taken := [])
  }

  /** onBeginTest, and the state it returns. */
  function Begun(t: Test): (Test, MachineState) {
    var u := Cleared(t);
    if u.waiting != [] then (AskNext(u), PacketSent) else (u, Idle)
  }

  /** There is a host to go on with, or nothing more to do. */
  predicate CanMove(t: Test) {
    t.waiting != [] || t.testingInvalid || t.confInvalid != []
  }

  /** move_along: there is one query per host, so packetsSent is never below one there. */
  function MovedAlong(t: Test): (Test, MachineState)
    requires CanMove(t)
  {
    var u := t.(packetsSent := 0);
    if u.waiting != [] then (AskNext(u), PacketSent)
    else if u.testingInvalid then (u.(reported := u.reported + [Report(u.validTimes, u.invalidTimes)]), Idle)
    else (AskNext(u.(testingInvalid := true, timesInvalid := true, waiting := u.confInvalid)), PacketSent)
  }

  /** onPacketReceived and onTimeout: push a sample. */
  function Pushed(t: Test, sample: int): Test {
    if t.timesInvalid then t.(invalidTimes := t.invalidTimes + [sample], taken := t.taken + [sample])
    else t.(validTimes := t.validTimes + [sample], taken := t.taken + [sample])
  }

  function InState(r: (Test, MachineState)): Test {
    r.0.(state := r.1)
  }

  /** process_stim */
  function Processed(t: Test, input: Input): Test
    requires t.state == PacketSent ==> CanMove(t)
  {
    match Edge(t.state, input.stim)
    case None => t
    case Some(OnBeginTest) => InState(Begun(t))
    case Some(OnPacketReceived) => InState(MovedAlong(Pushed(t, input.elapsed)))
    case Some(OnTimeout) => InState(MovedAlong(Pushed(t, LOST)))
  }

  // ---------- where a test can be ----------

  function Hosts(t: Test): seq<Host> { t.valid + t.invalid }

  predicate Resting(t: Test) {
    t.state == Idle && t.waiting == []
  }

  /** What holds between two queries as well. */
  predicate Underway(t: Test) {
    && t.valid != [] && t.invalid != [] && t.packetsSent == 1
    && (!t.testingInvalid ==> t.invalid == t.confInvalid)
    && t.timesInvalid == t.testingInvalid
    && t.validTimes == FirstHalf(t.taken, |t.valid|) && t.invalidTimes == SecondHalf(t.taken, |t.valid|)
  }

  /** A query is out and the samples in taken have been recorded, each in its half.  The invalid hosts
      are read from the configuration when the valid ones are done. */
  predicate Testing(t: Test) {
    && t.state == PacketSent && Underway(t)
    && |t.taken| < |Hosts(t)| && t.sent == Hosts(t)[..|t.taken| + 1] && t.toResolve == Hosts(t)[|t.taken|]
    && t.testingInvalid == (|t.taken| >= |t.valid|)
    && t.waiting == Waiting(t.valid, t.invalid, |t.taken|)
  }

  /** A sample has just been recorded for the last query. */
  predicate Recorded(t: Test) {
    && Underway(t)
    && 0 < |t.taken| <= |Hosts(t)| && t.sent == Hosts(t)[..|t.taken|]
    && t.testingInvalid == (|t.taken| > |t.valid|)
    && t.waiting == Before(t.valid, t.invalid, |t.taken|)
  }

  /** Every host was asked for once, in order, and the report is that of the samples. */
  predicate Finished(t: Test, before: seq<TestResults>) {
    && Resting(t) && t.sent == Hosts(t) && |t.taken| == |Hosts(t)|
    && t.reported == before + [Report(t.taken[..|t.valid|], t.taken[|t.valid|..])]
  }

  /** Either the next query is out, or the test is over. */
  predicate GoesOn(t: Test, before: seq<TestResults>) {
    if |t.taken| < |Hosts(t)| then Testing(t) && t.reported == before
    else Finished(t, before)
  }

  /** One more report, about these samples. */
  predicate OneMoreReport(before: seq<TestResults>, after: seq<TestResults>, valid: seq<int>, invalid: seq<int>) {
    |after| == |before| + 1 && after[..|before|] == before && Reports(after[|before|], valid, invalid)
  }

  lemma FinishedReports(t: Test, before: seq<TestResults>)
    requires GoesOn(t, before)
    ensures |t.taken| == |t.valid| + |t.invalid| ==>
      OneMoreReport(before, t.reported, t.taken[..|t.valid|], t.taken[|t.valid|..])
  {
    if |t.taken| == |t.valid| + |t.invalid| {
      ReportAdded(before, t.taken[..|t.valid|], t.taken[|t.valid|..], t.reported);
    }
  }

  predicate SameTest(t: Test, u: Test) {
    t.valid == u.valid && t.invalid == u.invalid && t.confValid == u.confValid && t.confInvalid == u.confInvalid
  }

  lemma BeginTests(t: Test)
    requires Resting(t) && t.confValid != [] && t.confInvalid != []
    ensures var u := InState(Begun(t));
            && Testing(u) && u.taken == [] && u.reported == t.reported
            && u.valid == t.confValid && u.invalid == t.confInvalid
            && u.confValid == t.confValid && u.confInvalid == t.confInvalid
  {
    var u := Begun(t).0;
    assert [] + t.confValid == t.confValid && [] + [t.confValid[0]] == [t.confValid[0]];
    assert Hosts(u)[..1] == [t.confValid[0]];
  }

  lemma AskedNext(t: Test)
    requires Recorded(t) && t.waiting != []
    ensures Testing(AskNext(t.(packetsSent := 0)).(state := PacketSent))
  {
    TakeNext(t.valid, t.invalid, |t.taken|);
    var k := |t.taken|;
    assert Hosts(t)[..k + 1] == Hosts(t)[..k] + [Hosts(t)[k]];
  }

  lemma TurnedToInvalid(t: Test)
    requires Recorded(t) && t.waiting == [] && !t.testingInvalid
    ensures t.confInvalid != []
    ensures Testing(AskNext(t.(packetsSent := 0, testingInvalid := true, timesInvalid := true,
                               waiting := t.confInvalid)).(state := PacketSent))
  {
    TakeNext(t.valid, t.invalid, |t.taken|);
    var k := |t.taken|;
    assert k == |t.valid| && Hosts(t)[..k + 1] == Hosts(t)[..k] + [Hosts(t)[k]];
  }

  lemma MoveGoesOn(t: Test)
    requires Recorded(t)
    ensures CanMove(t)
    ensures var u := InState(MovedAlong(t));
            GoesOn(u, t.reported) && SameTest(t, u) && u.taken == t.taken
  {
    TakeNext(t.valid, t.invalid, |t.taken|);
    if t.waiting != [] {
      AskedNext(t);
    } else if t.testingInvalid {
      assert Hosts(t)[..|t.taken|] == Hosts(t);
    } else {
      TurnedToInvalid(t);
    }
  }

  lemma PushRecords(t: Test, sample: int)
    requires Testing(t)
    ensures Recorded(Pushed(t, sample)) && SameTest(t, Pushed(t, sample))
  {
    HalvesGrow(t.taken, |t.valid|, sample);
    TakeNext(t.valid, t.invalid, |t.taken|);
  }

  lemma SampleGoesOn(t: Test, sample: int)
    requires Testing(t)
    ensures CanMove(Pushed(t, sample))
    ensures var u := InState(MovedAlong(Pushed(t, sample)));
            GoesOn(u, t.reported) && SameTest(t, u) && u.taken == t.taken + [sample]
  {
    PushRecords(t, sample);
    MoveGoesOn(Pushed(t, sample));
  }

  lemma ProcessedIs(t: Test, input: Input)
    requires t.state == PacketSent && CanMove(t) && CanMove(Pushed(t, SampleOf(input)))
    ensures Processed(t, input) == if Counts(input) then InState(MovedAlong(Pushed(t, SampleOf(input)))) else t
  {
  }

  /** A stimulus during a test: a reply or a timeout is one more sample, in the half of the host that
      was asked for, and the next query or the report goes out; any other is ignored. */
  lemma StimulusGoesOn(t: Test, input: Input)
    requires Testing(t)
    ensures CanMove(t)
    ensures GoesOn(Processed(t, input), t.reported) && SameTest(t, Processed(t, input))
    ensures Processed(t, input).taken == t.taken + if Counts(input) then [SampleOf(input)] else []
    ensures !Counts(input) ==> Processed(t, input) == t
  {
    SampleGoesOn(t, SampleOf(input));
    ProcessedIs(t, input);
    if Counts(input) {
    } else {
      assert t.taken + [] == t.taken && GoesOn(t, t.reported);
    }
  }

  /** Other invalid hosts make no difference before their turn. */
  lemma Reconfigured(t: Test, newValid: seq<Host>, newInvalid: seq<Host>)
    requires Testing(t) && (!t.testingInvalid ==> newInvalid != [])
    ensures var u := t.(confValid := newValid, confInvalid := newInvalid,
                        invalid := if t.testingInvalid then t.invalid else newInvalid);
            Testing(u)
  {
    var k := |t.taken|;
    if !t.testingInvalid {
      assert (t.valid + newInvalid)[..k + 1] == Hosts(t)[..k + 1];
    }
  }

  // ---------- the class ----------

  method MakeReport(valid: seq<int>, invalid: seq<int>) returns (r: TestResults)
    ensures r == Report(valid, invalid)
  {
    var validAverage, validDeviation, invalidAverage, invalidDeviation, lost;
    validAverage, validDeviation, lost := CalcHalfResults(valid, 0);
    invalidAverage, invalidDeviation, lost := CalcHalfResults(invalid, lost);
    r := TestResults(validAverage, validDeviation, invalidAverage, invalidDeviation,
                     Ratio(lost, |valid| + |invalid|));
  }

  class DnsTestImpl {
    var validHostnames: seq<Host>
    var invalidHostnames: seq<Host>
    var state: MachineState
    var packetsSent: nat
    var validLatencyTimes: seq<int>
    var invalidLatencyTimes: seq<int>
    /** Whether m_latency_times points to the second of the two vectors. */
    var latencyTimesInvalid: bool
    var toResolve: Host
    var waitingToResolve: seq<Host>
    var testingInvalid: bool
    /** What the observer has been told. */
    var reported: seq<TestResults>
    ghost var valid: seq<Host>
    ghost var invalid: seq<Host>
    ghost var sent: seq<Host>
    ghost var taken: seq<int>

    constructor ()
      ensures Resting(View()) && reported == []
    {
      validHostnames, invalidHostnames, state, packetsSent := [], [], Idle, 0;
      validLatencyTimes, invalidLatencyTimes, latencyTimesInvalid := [], [], false;
      toResolve, waitingToResolve, testingInvalid, reported := "", [], false, [];
      valid, invalid, sent, taken := [], [], [], [];
    }

    ghost function View(): Test
      reads this
    {
      Test(validHostnames, invalidHostnames, state, packetsSent, validLatencyTimes, invalidLatencyTimes,
           latencyTimesInvalid, toResolve, waitingToResolve, testingInvalid, reported, valid, invalid, sent, taken)
    }

    method Enqueue(hosts: seq<Host>)
      modifies `waitingToResolve
      ensures waitingToResolve == old(waitingToResolve) + hosts
    {
      for i := 0 to |hosts|
        invariant waitingToResolve == old(waitingToResolve) + hosts[..i]
      {
        waitingToResolve := waitingToResolve + [hosts[i]];
      }
      assert hosts[..|hosts|] == hosts;
    }

    /** to_resolve = m_waiting_to_resolve.front(); m_waiting_to_resolve.pop(); return send_dns() */
    method SendNext() returns (next: MachineState)
      requires waitingToResolve != []
      modifies `toResolve, `waitingToResolve, `packetsSent, `sent
      ensures View() == AskNext(old(View())) && next == PacketSent
    {
      toResolve := waitingToResolve[0];
      waitingToResolve := waitingToResolve[1..];
      packetsSent := packetsSent + 1;
      sent := sent + [toResolve];
      next := PacketSent;
    }

    method SendResults() returns (next: MachineState)
      modifies `reported
      ensures next == Idle
      ensures View() == old(View()).(reported := old(reported) + [Report(validLatencyTimes, invalidLatencyTimes)])
      ensures OneMoreReport(old(reported), reported, validLatencyTimes, invalidLatencyTimes)
    {
      var report := MakeReport(validLatencyTimes, invalidLatencyTimes);
      reported := reported + [report];
      ReportAdded(old(reported), validLatencyTimes, invalidLatencyTimes, reported);
      next := Idle;
    }

    method ClearTimes()
      modifies `latencyTimesInvalid, `validLatencyTimes, `invalidLatencyTimes
      ensures View() == old(View()).(timesInvalid := false, validTimes := [], invalidTimes := [])
    {
      latencyTimesInvalid := false;
      validLatencyTimes := [];
      invalidLatencyTimes := [];
    }

    ghost method Forget()
      modifies `valid, `invalid, `sent, `taken
      ensures View() == old(View()).(valid := validHostnames, invalid := invalidHostnames, sent := [], taken := [])
    {
      valid, invalid, sent, taken := validHostnames, invalidHostnames, [], [];
    }

    method Clear()
      modifies this
      ensures View() == Cleared(old(View()))
    {
      Enqueue(validHostnames);
      packetsSent := 0;
      testingInvalid := false;
      ClearTimes();
      Forget();
    }

    /** onBeginTest, without the socket. */
    method Begin() returns (next: MachineState)
      modifies this
      ensures (View(), next) == Begun(old(View()))
    {
      Clear();
      if waitingToResolve != [] {
        next := SendNext();
      } else {
        next := Idle;
      }
    }

    method TurnToInvalid() returns (next: MachineState)
      requires waitingToResolve == [] && invalidHostnames != []
      modifies `testingInvalid, `latencyTimesInvalid, `toResolve, `waitingToResolve, `packetsSent, `sent
      ensures next == PacketSent
      ensures View() == AskNext(old(View()).(testingInvalid := true, timesInvalid := true, waiting := invalidHostnames))
    {
      testingInvalid := true;
      latencyTimesInvalid := true;
      Enqueue(invalidHostnames);
      assert waitingToResolve == invalidHostnames;
      next := SendNext();
    }

    method MoveAlong() returns (next: MachineState)
      requires CanMove(View())
      modifies this
      ensures (View(), next) == MovedAlong(old(View()))
    {
      packetsSent := 0;
      if waitingToResolve != [] {
        next := SendNext();
      } else if testingInvalid {
        next := SendResults();
      } else {
        next := TurnToInvalid();
      }
    }

    method Record(sample: int) returns (next: MachineState)
      requires CanMove(View())
      modifies this
      ensures (View(), next) == MovedAlong(Pushed(old(View()), sample))
    {
      if latencyTimesInvalid {
        invalidLatencyTimes := invalidLatencyTimes + [sample];
      } else {
        validLatencyTimes := validLatencyTimes + [sample];
      }
      taken := taken + [sample];
      next := MoveAlong();
    }

    method ProcessStim(input: Input)
      requires state == PacketSent ==> CanMove(View())
      modifies this
      ensures View() == Processed(old(View()), input)
    {
      var next;
      match Edge(state, input.stim) {
        case None => return;
        case Some(OnBeginTest) => next := Begin();
        case Some(OnPacketReceived) => next := Record(input.elapsed);
        case Some(OnTimeout) => next := Record(LOST);
      }
      state := next;
    }

    /** startTest, at any time: on an idle machine a test begins, unless there is no valid host.  During
        a test the stimulus is ignored, but the new invalid hosts are there when their turn comes. */
    method StartTest(newValid: seq<Host>, newInvalid: seq<Host>)
      requires Resting(View()) || Testing(View())
      requires Resting(View()) && newValid != [] ==> newInvalid != []
      requires Testing(View()) && !testingInvalid ==> newInvalid != []
      modifies this
      ensures validHostnames == newValid && invalidHostnames == newInvalid && reported == old(reported)
      ensures old(Resting(View())) && newValid != [] ==>
                Testing(View()) && taken == [] && valid == newValid && invalid == newInvalid
      ensures old(Resting(View())) && newValid == [] ==> Resting(View())
      ensures old(Testing(View())) ==>
                && Testing(View()) && taken == old(taken) && sent == old(sent) && valid == old(valid)
                && invalid == if old(testingInvalid) then old(invalid) else newInvalid
    {
      ghost var t := View();
      validHostnames, invalidHostnames := newValid, newInvalid;
      if state == PacketSent {
        invalid := if testingInvalid then invalid else newInvalid;
        Reconfigured(t, newValid, newInvalid);
      } else if newValid != [] {
        BeginTests(View());
      }
      ProcessStim(Input(BeginTest, 0));
    }

    /** The stimuli of a test in progress, as long as it goes on. */
    method TakeStimuli(inputs: seq<Input>) returns (used: nat)
      requires Testing(View()) && taken == []
      modifies this
      ensures valid == old(valid) && invalid == old(invalid)
      ensures used <= |inputs| && taken == Samples(inputs[..used])
      ensures forall k :: 0 <= k < used ==> |Samples(inputs[..k])| < |old(valid)| + |old(invalid)|
      ensures |taken| < |old(valid)| + |old(invalid)| ==> used == |inputs|
      ensures GoesOn(View(), old(reported))
    {
      used := 0;
      while used < |inputs| && state == PacketSent
        invariant used <= |inputs| && taken == Samples(inputs[..used])
        invariant valid == old(valid) && invalid == old(invalid)
        invariant forall k :: 0 <= k < used ==> |Samples(inputs[..k])| < |old(valid)| + |old(invalid)|
        invariant GoesOn(View(), old(reported))
      {
        assert inputs[..used + 1][..used] == inputs[..used];
        StimulusGoesOn(View(), inputs[used]);
        ProcessStim(inputs[used]);
        used := used + 1;
      }
    }

    /** A whole test, under any sequence of stimuli: it is over as soon as there are as many samples
        as hosts, and not before; every host was asked for once, in order; and the report is that of
        the samples. */
    method RunTest(newValid: seq<Host>, newInvalid: seq<Host>, inputs: seq<Input>) returns (used: nat)
      requires Resting(View()) && newValid != [] && newInvalid != []
      modifies this
      ensures valid == newValid && invalid == newInvalid
      ensures used <= |inputs| && taken == Samples(inputs[..used])
      ensures forall k :: 0 <= k < used ==> |Samples(inputs[..k])| < |newValid| + |newInvalid|
      ensures |taken| < |newValid| + |newInvalid| ==> used == |inputs|
      ensures GoesOn(View(), old(reported))
      ensures |taken| == |newValid| + |newInvalid| ==>
                OneMoreReport(old(reported), reported, taken[..|newValid|], taken[|newValid|..])
    {
      StartTest(newValid, newInvalid);
      used := TakeStimuli(inputs);
      FinishedReports(View(), old(reported));
    }
  }
}
