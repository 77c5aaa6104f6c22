/** Which report the server ends up with: with one worker the last one, with more a late
    delivery can win; and a run that shows the poll counter overcounted. */
module LastReport {
  import opened Model
  import opened Storage
  import opened MemoryBackend
  import opened Collecting
  import opened Pipeline
  import opened Delivery

  ghost predicate GaugesAreLast(s: State) {
    s.pushed != [] && s.server.gauges == s.pushed[|s.pushed| - 1].snap.gauges
  }

  /** How often the server applied the last batch whose SendBatch returned. */
  function LastCopies(es: seq<Event>): nat {
    if es == [] then 0
    else if es[|es| - 1].Finish? then es[|es| - 1].copies
    else LastCopies(es[..|es| - 1])
  }

  function TakenKeys(s: State): set<string> {
    if s.taken == [] then {} else Keys(s.taken[|s.taken| - 1])
  }

  /** A single worker: the server knows no gauge the batch last taken does not carry, and holds
      that batch's gauges once it was applied. */
  predicate OneWorkerOk(s: State, last: nat) {
    |s.workers| == 1 ==>
      && s.server.gauges.Keys <= TakenKeys(s)
      && (s.workers[0].Sending? ==> s.taken != [] && s.workers[0].job == s.taken[|s.taken| - 1])
      && (!s.workers[0].Sending? && last >= 1 ==> s.taken != [] && s.server.gauges == s.taken[|s.taken| - 1].snap.gauges)
  }

  lemma GaugesReplaced(server: Store, job: Job)
    requires Reports(job.ms, job.snap) && server.gauges.Keys <= Keys(job)
    ensures ApplyAll(server, job.ms).gauges == job.snap.gauges
  {
    ReportEffect(server, job.ms, job.snap);
    assert server.gauges + job.snap.gauges == job.snap.gauges;
  }

  /** However often it is applied. */
  lemma {:induction false} DeliverGauges(s: State, job: Job, copies: nat)
    requires Reports(job.ms, job.snap) && s.server.gauges.Keys <= Keys(job)
    ensures Deliver(s, job, copies).server.gauges == if copies == 0 then s.server.gauges else job.snap.gauges
  {
    if copies != 0 {
      DeliverGauges(s, job, copies - 1);
      GaugesReplaced(Deliver(s, job, copies - 1).server, job);
    }
  }

  lemma {:induction false} OneWorkerTake(s: State, last: nat, w: nat)
    requires Inv(s) && PushedOk(s) && OneWorkerOk(s, last) && Enabled(s, Take(w))
    ensures OneWorkerOk(Next(s, Take(w)), last)
  {
    var t := Next(s, Take(w));
    TakenKeysGrow(s);
    assert t.taken == s.taken + [s.queue[0]] && t.server == s.server && t.workers == s.workers[w := Sending(s.queue[0])];
  }

  lemma TakenKeysGrow(s: State)
    requires Inv(s) && PushedOk(s) && s.queue != []
    ensures TakenKeys(s) <= Keys(s.queue[0])
  {
    var n := |s.taken|;
    assert s.pushed[n] == s.queue[0];
    if n > 0 {
      assert s.pushed[n - 1] == s.taken[n - 1];
    }
  }

  lemma {:induction false} OneWorkerFinish(s: State, last: nat, w: nat, copies: nat)
    requires Inv(s) && PushedOk(s) && OneWorkerOk(s, last) && Enabled(s, Finish(w, copies))
    ensures OneWorkerOk(Next(s, Finish(w, copies)), copies)
  {
    var job := s.workers[w].job;
    var t := Next(s, Finish(w, copies));
    DeliverFrame(s, job, copies);
    assert t.taken == s.taken && t.workers == s.workers[w := Ready] && t.server == Deliver(s, job, copies).server;
    if |s.workers| == 1 {
      assert s.pushed[|s.taken| - 1] == s.taken[|s.taken| - 1];
      DeliverGauges(s, job, copies);
    }
  }

  lemma OneWorkerOther(s: State, last: nat, e: Event)
    requires OneWorkerOk(s, last) && Enabled(s, e) && !e.Take? && !e.Finish?
    ensures OneWorkerOk(Next(s, e), last)
  {
    var t := Next(s, e);
    assert t.taken == s.taken && t.server == s.server;
  }

  lemma {:induction false} OneWorkerRun(s0: State, es: seq<Event>)
    requires Init(s0) && Exec(s0, es).Some?
    ensures PushedOk(Exec(s0, es).value) && OneWorkerOk(Exec(s0, es).value, LastCopies(es))
  {
    if es == [] {
      DeliveryInit(s0);
    } else {
      var front, e := es[..|es| - 1], es[|es| - 1];
      OneWorkerRun(s0, front);
      InvRun(s0, front);
      var s := Exec(s0, front).value;
      PushedNext(s, e);
      match e
      case Take(w) => OneWorkerTake(s, LastCopies(front), w);
      case Finish(w, copies) => OneWorkerFinish(s, LastCopies(front), w, copies);
      case _ => OneWorkerOther(s, LastCopies(front), e);
    }
  }

  /** One worker: the server's gauges are exactly those of the last pushed snapshot as soon as
      the last batch was applied, however often each one was, and even if earlier ones were not. */
  lemma {:induction false} OneWorkerKeepsLast(s0: State, es: seq<Event>)
    requires Init(s0) && s0.limit == 1 && Exec(s0, es).Some? && Complete(Exec(s0, es).value) && LastCopies(es) >= 1
    ensures GaugesAreLast(Exec(s0, es).value)
  {
    EverythingPushedIsAttempted(s0, es);
    InvRun(s0, es);
    OneWorkerRun(s0, es);
    OneWorkerDone(Exec(s0, es).value, LastCopies(es));
  }

  lemma OneWorkerDone(s: State, last: nat)
    requires |s.workers| == 1 && s.workers[0].Exited? && OneWorkerOk(s, last) && last >= 1
    requires s.pushed != [] && s.taken == s.pushed
    ensures GaugesAreLast(s)
  {
  }

  /** Every SendBatch succeeded: the server applied the batch, perhaps more than once. */
  predicate Applied(es: seq<Event>) {
    forall i :: 0 <= i < |es| && es[i].Finish? ==> es[i].copies >= 1
  }

  lemma CleanIsApplied(es: seq<Event>)
    requires Clean(es)
    ensures Applied(es)
  {
    forall i | 0 <= i < |es| && es[i].Finish? ensures es[i].copies >= 1 {
      assert CleanEvent(es[i]);
    }
  }

  lemma {:induction false} SomethingFinished(s0: State, es: seq<Event>)
    requires Init(s0) && Exec(s0, es).Some? && Applied(es) && Exec(s0, es).value.finished != {}
    ensures LastCopies(es) >= 1
  {
    var front, e := es[..|es| - 1], es[|es| - 1];
    if !e.Finish? {
      assert Next(Exec(s0, front).value, e).finished == Exec(s0, front).value.finished;
      SomethingFinished(s0, front);
    }
  }

  ghost predicate AlwaysLast(limit: nat) {
    forall s0, es :: Init(s0) && s0.limit == limit && Exec(s0, es).Some? && Applied(es) && Complete(Exec(s0, es).value) ==>
                       GaugesAreLast(Exec(s0, es).value)
  }

  // ---- with more workers a late delivery can win ----

  ghost predicate Reaches(s0: State, t: State) {
    exists es :: Exec(s0, es) == Some(t) && Clean(es)
  }

  lemma Start(s: State)
    ensures Reaches(s, s)
  {
    assert Exec(s, []) == Some(s) && Clean([]);
  }

  lemma Extend(s0: State, t: State, e: Event)
    requires Reaches(s0, t) && Enabled(t, e) && CleanEvent(e)
    ensures Reaches(s0, Next(t, e))
  {
    var es :| Exec(s0, es) == Some(t) && Clean(es);
    assert (es + [e])[..|es|] == es;
    assert Exec(s0, es + [e]) == Some(Next(t, e));
    assert Clean(es + [e]);
  }

  /** A runtime sample with every value the same. */
  function Sample(v: real): map<string, Float64> {
    map k | k in RUNTIME_NAMES :: Finite(v)
  }

  function Fresh(n: nat): State {
    State(n, false, Selecting, [], false, seq(n, _ => Ready), Starting, Looping, Snapshot(map[], 0), [], [], {}, [], EMPTY)
  }

  lemma Step(s0: State, t: State, e: Event, u: State)
    requires Reaches(s0, t) && Enabled(t, e) && CleanEvent(e) && Next(t, e) == u
    ensures Reaches(s0, u)
  {
    Extend(s0, t, e);
  }

  /** Poll and report. */
  lemma FirstPush(n: nat, a: Snapshot, ms: seq<Metrics>)
    requires 1 <= n && a == Snapshot(Sample(1.0), 1) && Reports(ms, a)
    ensures var j := Job(0, a, ms, false, false);
            Reaches(Fresh(n), Fresh(n).(runtimeLoop := Looping, metrics := a, pushed := [j], queue := [j]))
  {
    var s := Fresh(n);
    Start(s);
    assert map[] + Sample(1.0) == Sample(1.0);
    var s1 := s.(runtimeLoop := Looping, metrics := a);
    Step(s, s, Collect(Sample(1.0)), s1);
    Step(s, s1, Tick, s1.(reporter := Ticked));
    var s2 := s1.(reporter := Offering(a, ms));
    Step(s, s1.(reporter := Ticked), Snap(ms), s2);
    var j := Job(0, a, ms, false, false);
    Step(s, s2, Push, s1.(queue := [j], pushed := [j]));
  }

  lemma FirstReport(n: nat, a: Snapshot, ms: seq<Metrics>)
    requires 1 <= n && a == Snapshot(Sample(1.0), 1) && Reports(ms, a)
    ensures var j := Job(0, a, ms, false, false);
            Reaches(Fresh(n), Fresh(n).(runtimeLoop := Looping, metrics := a, pushed := [j], taken := [j],
                                        workers := Fresh(n).workers[0 := Sending(j)]))
  {
    FirstPush(n, a, ms);
    var s, j := Fresh(n), Job(0, a, ms, false, false);
    var t := s.(runtimeLoop := Looping, metrics := a, pushed := [j], queue := [j]);
    assert [j][1..] == [] && [] + [j] == [j];
    Step(s, t, Take(0), t.(queue := [], taken := [j], workers := s.workers[0 := Sending(j)]));
  }

  /** Poll again and cancel; the reporter takes the Done branch and pushes the flush. */
  lemma FlushAfterCancel(s: State, t: State, b: Snapshot, ms: seq<Metrics>)
    requires Reaches(s, t) && t.reporter.Selecting? && t.queue == [] && !t.cancelled && 0 < t.limit
    requires t.runtimeLoop.Looping? && |t.pushed| == 1
    requires b == Collected(t.metrics, Sample(2.0)) && Reports(ms, b)
    ensures var j := Job(1, b, ms, true, true);
            Reaches(s, t.(metrics := b, cancelled := true, reporter := Returning, queue := [j], pushed := t.pushed + [j]))
  {
    var t1 := t.(metrics := b);
    Step(s, t, Collect(Sample(2.0)), t1);
    var t2 := t1.(cancelled := true);
    Step(s, t1, Cancel, t2);
    FlushNow(s, t2, ms);
  }

  lemma EveryoneElseStops(s: State, t: State)
    requires Reaches(s, t) && t.reporter.Returning? && t.cancelled && t.runtimeLoop.Looping? && t.extraLoop.Looping?
    ensures Reaches(s, t.(reporter := Gone, closed := true, runtimeLoop := Stopped, extraLoop := Stopped))
  {
    var t5 := t.(reporter := Closed, closed := true);
    Step(s, t, Close, t5);
    var t6 := t5.(reporter := Gone);
    Step(s, t5, ReporterExit, t6);
    Step(s, t6, StopCollect, t6.(runtimeLoop := Stopped));
    Step(s, t6.(runtimeLoop := Stopped), StopExtra, t6.(runtimeLoop := Stopped, extraLoop := Stopped));
  }

  /** Worker 1 takes and delivers the newer report before worker 0 delivers the older one. */
  lemma LateDelivery(s: State, t: State, stale: Job, newer: Job) returns (u: State)
    requires Reaches(s, t) && |t.workers| >= 2 && t.queue == [newer]
    requires t.workers[0] == Sending(stale) && t.workers[1].Ready?
    ensures Reaches(s, u)
    ensures u.server == ApplyAll(ApplyAll(t.server, newer.ms), stale.ms) && u.pushed == t.pushed && u.queue == []
    ensures u.workers == t.workers[0 := Ready]
    ensures u.reporter == t.reporter && u.closed == t.closed
    ensures u.runtimeLoop == t.runtimeLoop && u.extraLoop == t.extraLoop
  {
    Extend(s, t, Take(1));
    var t1 := Next(t, Take(1));
    Extend(s, t1, Finish(1, 1));
    var t2 := Next(t1, Finish(1, 1));
    assert Deliver(t1, newer, 0) == t1;
    assert t2.workers[0] == Sending(stale);
    Extend(s, t2, Finish(0, 1));
    u := Next(t2, Finish(0, 1));
    assert Deliver(t2, stale, 0) == t2;
    assert u.workers == t.workers[0 := Ready];
  }

  lemma {:induction false} AllExit(s: State, t: State, k: nat) returns (u: State)
    requires Reaches(s, t) && t.closed && t.queue == [] && k <= |t.workers|
    requires forall w :: 0 <= w < k ==> t.workers[w].Exited?
    requires forall w :: k <= w < |t.workers| ==> t.workers[w].Ready?
    ensures Reaches(s, u) && u == t.(workers := u.workers) && |u.workers| == |t.workers|
    ensures forall w :: 0 <= w < |u.workers| ==> u.workers[w].Exited?
    decreases |t.workers| - k
  {
    if k == |t.workers| {
      u := t;
    } else {
      Extend(s, t, Exit(k));
      u := AllExit(s, Next(t, Exit(k)), k + 1);
    }
  }

  /** Up to the point where worker 0 holds the older report, the newer one is queued, and
      everything but the workers has stopped. */
  lemma StaleSetup(n: nat) returns (t: State, stale: Job, newer: Job)
    requires 1 <= n
    ensures Reaches(Fresh(n), t) && t.reporter.Gone? && t.closed && t.runtimeLoop.Stopped? && t.extraLoop.Stopped?
    ensures t.workers == Fresh(n).workers[0 := Sending(stale)] && t.queue == [newer] && t.server == EMPTY
    ensures t.pushed == [stale] + [newer]
    ensures stale.snap == Snapshot(Sample(1.0), 1) && newer.snap == Snapshot(Sample(2.0), 2)
    ensures Reports(stale.ms, stale.snap) && Reports(newer.ms, newer.snap)
  {
    var s := Fresh(n);
    var a := Snapshot(Sample(1.0), 1);
    var b := Snapshot(Sample(2.0), 2);
    assert Sample(1.0) + Sample(2.0) == Sample(2.0);
    var msA := ReportExists(a);
    var msB := ReportExists(b);
    stale, newer := Job(0, a, msA, false, false), Job(1, b, msB, true, true);
    FirstReport(n, a, msA);
    var t0 := s.(runtimeLoop := Looping, metrics := a, pushed := [stale], taken := [stale], workers := s.workers[0 := Sending(stale)]);
    FlushAfterCancel(s, t0, b, msB);
    var t1 := t0.(metrics := b, cancelled := true, reporter := Returning, queue := [newer], pushed := [stale] + [newer]);
    EveryoneElseStops(s, t1);
    t := t1.(reporter := Gone, closed := true, runtimeLoop := Stopped, extraLoop := Stopped);
  }

  lemma {:induction false} StaleWins(n: nat) returns (u: State)
    requires 2 <= n
    ensures Reaches(Fresh(n), u) && Complete(u) && !GaugesAreLast(u)
  {
    var t, stale, newer := StaleSetup(n);
    var t1 := LateDelivery(Fresh(n), t, stale, newer);
    assert t1.workers == Fresh(n).workers;
    u := AllExit(Fresh(n), t1, 0);
    assert "Alloc" in RUNTIME_NAMES;
    assert Finite(1.0) != Finite(2.0);
    StaleContents(stale, newer);
  }

  /** Worker 0 delivers the older report and then takes and delivers the newer one. */
  lemma OrderlyDelivery(s: State, t: State, older: Job, newer: Job) returns (u: State)
    requires Reaches(s, t) && |t.workers| >= 1 && t.queue == [newer] && t.workers[0] == Sending(older)
    ensures Reaches(s, u)
    ensures u.server == ApplyAll(ApplyAll(t.server, older.ms), newer.ms) && u.pushed == t.pushed && u.queue == []
    ensures u.workers == t.workers[0 := Ready]
    ensures u.reporter == t.reporter && u.closed == t.closed
    ensures u.runtimeLoop == t.runtimeLoop && u.extraLoop == t.extraLoop
  {
    Extend(s, t, Finish(0, 1));
    var t1 := Next(t, Finish(0, 1));
    assert Deliver(t, older, 0) == t;
    Extend(s, t1, Take(0));
    var t2 := Next(t1, Take(0));
    Extend(s, t2, Finish(0, 1));
    u := Next(t2, Finish(0, 1));
    assert Deliver(t2, newer, 0) == t2;
    assert u.workers == t.workers[0 := Ready];
  }

  /** For every rate limit: two polls, two reports, each delivered once and in order, and the
      server counts three polls. */
  lemma PollCountCanBeWrong(n: nat) returns (u: State)
    requires 1 <= n
    ensures Reaches(Fresh(n), u) && Complete(u)
    ensures |u.pushed| == 2 && u.pushed[1].snap.counter == 2 && Count(u.server, POLL_COUNT) == 3
  {
    var t, older, newer := StaleSetup(n);
    var t1 := OrderlyDelivery(Fresh(n), t, older, newer);
    assert t1.workers == Fresh(n).workers;
    u := AllExit(Fresh(n), t1, 0);
    TwoReportsCount(older, newer);
  }

  lemma TwoReportsCount(older: Job, newer: Job)
    requires Reports(older.ms, older.snap) && Reports(newer.ms, newer.snap)
    requires older.snap.counter == 1 && newer.snap.counter == 2
    ensures Count(ApplyAll(ApplyAll(EMPTY, older.ms), newer.ms), POLL_COUNT) == 3
  {
    ReportEffect(EMPTY, older.ms, older.snap);
    ReportEffect(ApplyAll(EMPTY, older.ms), newer.ms, newer.snap);
  }

  /** Poll, cancel, and the outer select takes the ticker branch all the same. */
  lemma LatePush(n: nat, a: Snapshot, ms: seq<Metrics>)
    requires 1 <= n && a == Snapshot(Sample(1.0), 1) && Reports(ms, a)
    ensures var j := Job(0, a, ms, false, true);
            Reaches(Fresh(n), Fresh(n).(runtimeLoop := Looping, metrics := a, cancelled := true, pushed := [j], queue := [j]))
  {
    var s := Fresh(n);
    Start(s);
    assert map[] + Sample(1.0) == Sample(1.0);
    var s1 := s.(runtimeLoop := Looping, metrics := a);
    Step(s, s, Collect(Sample(1.0)), s1);
    var s2 := s1.(cancelled := true);
    Step(s, s1, Cancel, s2);
    Step(s, s2, Tick, s2.(reporter := Ticked));
    var s3 := s2.(reporter := Offering(a, ms));
    Step(s, s2.(reporter := Ticked), Snap(ms), s3);
    var j := Job(0, a, ms, false, true);
    assert [] + [j] == [j];
    Step(s, s3, Push, s2.(queue := [j], pushed := [j]));
  }

  /** Worker 0 takes and delivers the only queued batch. */
  lemma DeliverQueued(s: State, t: State, j: Job) returns (u: State)
    requires Reaches(s, t) && |t.workers| >= 1 && t.queue == [j] && t.workers[0].Ready?
    ensures Reaches(s, u)
    ensures u == t.(queue := [], workers := t.workers, taken := u.taken, finished := u.finished, applied := u.applied, server := u.server)
  {
    Extend(s, t, Take(0));
    var t1 := Next(t, Take(0));
    Extend(s, t1, Finish(0, 1));
    u := Next(t1, Finish(0, 1));
    assert Deliver(t1, j, 0) == t1;
    assert u.workers == t.workers;
  }

  /** The Done branch at the outer select, a last snapshot and its push. */
  lemma FlushNow(s: State, t: State, ms: seq<Metrics>)
    requires Reaches(s, t) && t.reporter.Selecting? && t.queue == [] && t.cancelled && 0 < t.limit && Reports(ms, t.metrics)
    ensures var j := Job(|t.pushed|, t.metrics, ms, true, true);
            Reaches(s, t.(reporter := Returning, queue := [j], pushed := t.pushed + [j]))
  {
    Step(s, t, OuterDone, t.(reporter := Flushing));
    var t1 := t.(reporter := FlushOffering(t.metrics, ms));
    Step(s, t.(reporter := Flushing), FlushSnap(ms), t1);
    var j := Job(|t.pushed|, t.metrics, ms, true, true);
    assert [] + [j] == [j];
    Step(s, t1, FlushPush, t.(reporter := Returning, queue := [j], pushed := t.pushed + [j]));
  }

  /** A `select` may choose the ticker although the context is done: for every rate limit a
      complete run pushes a report after the cancel that is not the final flush. */
  lemma TickAfterCancel(n: nat) returns (u: State)
    requires 1 <= n
    ensures Reaches(Fresh(n), u) && Complete(u)
    ensures |u.pushed| == 2 && u.pushed[0].cancelled && !u.pushed[0].final && u.pushed[1].final
  {
    var s, a := Fresh(n), Snapshot(Sample(1.0), 1);
    var ms := ReportExists(a);
    LatePush(n, a, ms);
    var j := Job(0, a, ms, false, true);
    var t0 := s.(runtimeLoop := Looping, metrics := a, cancelled := true, pushed := [j], queue := [j]);
    var t1 := DeliverQueued(s, t0, j);
    FlushNow(s, t1, ms);
    var k := Job(1, a, ms, true, true);
    var t2 := t1.(reporter := Returning, queue := [k], pushed := t1.pushed + [k]);
    var t3 := DeliverQueued(s, t2, k);
    EveryoneElseStops(s, t3);
    u := AllExit(s, t3.(reporter := Gone, closed := true, runtimeLoop := Stopped, extraLoop := Stopped), 0);
  }

  /** Applying the newer report and then the older one leaves the older one's gauges. */
  lemma StaleContents(stale: Job, newer: Job)
    requires Reports(stale.ms, stale.snap) && Reports(newer.ms, newer.snap)
    requires "Alloc" in stale.snap.gauges && "Alloc" in newer.snap.gauges
    requires stale.snap.gauges["Alloc"] != newer.snap.gauges["Alloc"]
    ensures ApplyAll(ApplyAll(EMPTY, newer.ms), stale.ms).gauges != newer.snap.gauges
  {
    ReportEffect(EMPTY, newer.ms, newer.snap);
    ReportEffect(ApplyAll(EMPTY, newer.ms), stale.ms, stale.snap);
    var gauges := ApplyAll(ApplyAll(EMPTY, newer.ms), stale.ms).gauges;
    assert gauges["Alloc"] == stale.snap.gauges["Alloc"];
  }

  /** The exact condition: the server always ends with the last snapshot's gauges iff the
      agent runs with a rate limit of one. */
  lemma LastSnapshotWinsIff(limit: nat)
    requires 0 < limit
    ensures AlwaysLast(limit) <==> limit == 1
  {
    if limit == 1 {
      forall s0, es | Init(s0) && s0.limit == limit && Exec(s0, es).Some? && Applied(es) && Complete(Exec(s0, es).value)
        ensures GaugesAreLast(Exec(s0, es).value)
      {
        EverythingPushedIsAttempted(s0, es);
        assert 0 in Exec(s0, es).value.finished;
        SomethingFinished(s0, es);
        OneWorkerKeepsLast(s0, es);
      }
    } else {
      var u := StaleWins(limit);
      var es :| Exec(Fresh(limit), es) == Some(u) && Clean(es);
      assert Init(Fresh(limit));
      CleanIsApplied(es);
    }
  }
}
