/** End to end: what a server that starts empty and serves one agent holds when the agent's
    `Run` returns, for the code as wired (`AckCounter` is never called). */
module Delivery {
  import opened Model
  import opened Storage
  import opened MemoryBackend
  import opened Collecting
  import opened Pipeline

  /** Every SendBatch succeeded and was applied once. */
  predicate CleanEvent(e: Event) {
    e.Finish? ==> e.copies == 1
  }

  predicate Clean(es: seq<Event>) {
    forall i :: 0 <= i < |es| ==> CleanEvent(es[i])
  }

  /** An empty server after it has applied the given reports in order. */
  function Served(jobs: seq<Job>): Store {
    if jobs == [] then EMPTY else ApplyAll(Served(jobs[..|jobs| - 1]), jobs[|jobs| - 1].ms)
  }

  /** The exact sum of the poll counters of the given reports. */
  function Polls(jobs: seq<Job>): int {
    if jobs == [] then 0 else Polls(jobs[..|jobs| - 1]) + jobs[|jobs| - 1].snap.counter
  }

  // ---- what was pushed ----

  function Keys(j: Job): set<string> {
    j.snap.gauges.Keys
  }

  /** Pushed jobs are reports of snapshots whose key sets only grow. */
  ghost predicate Growing(jobs: seq<Job>) {
    && (forall i :: 0 <= i < |jobs| ==> Reports(jobs[i].ms, jobs[i].snap))
    && (forall i, j :: 0 <= i < j < |jobs| ==> Keys(jobs[i]) <= Keys(jobs[j]))
  }

  predicate Carries(r: Reporter) {
    r.Offering? || r.FlushOffering?
  }

  /** The keys the next push will have at least. */
  function NextKeys(s: State): set<string> {
    if Carries(s.reporter) then s.reporter.snap.gauges.Keys else s.metrics.gauges.Keys
  }

  ghost predicate PushedOk(s: State) {
    && Growing(s.pushed)
    && (forall i :: 0 <= i < |s.pushed| ==> Keys(s.pushed[i]) <= NextKeys(s))
    && NextKeys(s) <= s.metrics.gauges.Keys
    && (Carries(s.reporter) ==> Reports(s.reporter.ms, s.reporter.snap))
  }

  lemma GrowingSnoc(jobs: seq<Job>, j: Job)
    requires Growing(jobs) && Reports(j.ms, j.snap) && forall i :: 0 <= i < |jobs| ==> Keys(jobs[i]) <= Keys(j)
    ensures Growing(jobs + [j])
  {
  }

  lemma PushKeepsPushed(s: State, e: Event)
    requires PushedOk(s) && Enabled(s, e) && (e.Push? || e.FlushPush?)
    ensures PushedOk(Next(s, e))
  {
    var t := Next(s, e);
    GrowingSnoc(s.pushed, t.pushed[|s.pushed|]);
  }

  lemma PushedNext(s: State, e: Event)
    requires PushedOk(s) && Enabled(s, e)
    ensures PushedOk(Next(s, e))
  {
    if e.Push? || e.FlushPush? {
      PushKeepsPushed(s, e);
    } else {
      if e.Finish? {
        DeliverFrame(s, s.workers[e.w].job, e.copies);
      }
      assert Next(s, e).pushed == s.pushed;
    }
  }

  // ---- what the server applied ----

  /** How often `job` is being sent. */
  function Flying(ws: seq<Worker>, job: Job): nat {
    if ws == [] then 0 else Flying(ws[..|ws| - 1], job) + Carried(ws[|ws| - 1], job)
  }

  function Carried(w: Worker, job: Job): nat {
    if w == Sending(job) then 1 else 0
  }

  lemma {:induction false} FlyingUpdate(ws: seq<Worker>, i: nat, w: Worker, job: Job)
    requires i < |ws|
    ensures Flying(ws[i := w], job) + Carried(ws[i], job) == Flying(ws, job) + Carried(w, job)
  {
    var n := |ws| - 1;
    if i == n {
      assert ws[i := w][..n] == ws[..n];
    } else {
      FlyingUpdate(ws[..n], i, w, job);
      assert ws[i := w][..n] == ws[..n][i := w];
    }
  }

  lemma {:induction false} NoneFlying(ws: seq<Worker>, job: Job)
    requires forall w :: 0 <= w < |ws| ==> !ws[w].Sending?
    ensures Flying(ws, job) == 0
  {
    if ws != [] {
      NoneFlying(ws[..|ws| - 1], job);
    }
  }

  /** The server holds exactly what it was sent, in the order it applied it. */
  ghost predicate ServerOk(s: State) {
    s.server == Served(s.applied)
  }

  /** Every job passed to SendBatch is applied or still being sent, each as often as taken. */
  ghost predicate CountOk(s: State) {
    forall job :: multiset(s.applied)[job] + Flying(s.workers, job) == multiset(s.taken)[job]
  }

  ghost predicate AppliedOk(s: State) {
    ServerOk(s) && CountOk(s)
  }

  lemma CountSnoc(jobs: seq<Job>, x: Job, j: Job)
    ensures multiset(jobs + [x])[j] == multiset(jobs)[j] + (if j == x then 1 else 0)
  {
  }

  lemma CountFinish(s: State, t: State, w: nat)
    requires CountOk(s) && w < |s.workers| && s.workers[w].Sending?
    requires t.workers == s.workers[w := Ready] && t.taken == s.taken && t.applied == s.applied + [s.workers[w].job]
    ensures CountOk(t)
  {
    forall j ensures multiset(t.applied)[j] + Flying(t.workers, j) == multiset(t.taken)[j] {
      FlyingUpdate(s.workers, w, Ready, j);
      CountSnoc(s.applied, s.workers[w].job, j);
    }
  }

  lemma ServedSnoc(jobs: seq<Job>, job: Job)
    ensures Served(jobs + [job]) == ApplyAll(Served(jobs), job.ms)
  {
    assert (jobs + [job])[..|jobs|] == jobs;
  }

  lemma FinishParts(s: State, w: nat)
    requires Enabled(s, Finish(w, 1))
    ensures var t, job := Next(s, Finish(w, 1)), s.workers[w].job;
            && t.applied == s.applied + [job] && t.taken == s.taken && t.workers == s.workers[w := Ready]
            && t.server == ApplyAll(s.server, job.ms)
  {
    assert Deliver(s, s.workers[w].job, 0) == s;
  }

  lemma AppliedFinish(s: State, w: nat)
    requires AppliedOk(s) && Enabled(s, Finish(w, 1))
    ensures AppliedOk(Next(s, Finish(w, 1)))
  {
    var t := Next(s, Finish(w, 1));
    FinishParts(s, w);
    CountFinish(s, t, w);
    ServedSnoc(s.applied, s.workers[w].job);
  }

  lemma CountTake(s: State, t: State, w: nat, job: Job)
    requires CountOk(s) && w < |s.workers| && s.workers[w].Ready?
    requires t.workers == s.workers[w := Sending(job)] && t.taken == s.taken + [job] && t.applied == s.applied
    ensures CountOk(t)
  {
    forall j ensures multiset(t.applied)[j] + Flying(t.workers, j) == multiset(t.taken)[j] {
      FlyingUpdate(s.workers, w, Sending(job), j);
      CountSnoc(s.taken, job, j);
    }
  }

  lemma AppliedTake(s: State, w: nat)
    requires AppliedOk(s) && Enabled(s, Take(w))
    ensures AppliedOk(Next(s, Take(w)))
  {
    var t := Next(s, Take(w));
    CountTake(s, t, w, s.queue[0]);
  }

  lemma AppliedOther(s: State, e: Event)
    requires AppliedOk(s) && Enabled(s, e) && !e.Take? && !e.Finish?
    ensures AppliedOk(Next(s, e))
  {
    var t := Next(s, e);
    assert t.applied == s.applied && t.taken == s.taken && t.server == s.server;
    if e.Exit? {
      forall j ensures Flying(t.workers, j) == Flying(s.workers, j) {
        FlyingUpdate(s.workers, e.w, Exited, j);
      }
    } else {
      assert t.workers == s.workers;
    }
  }

  lemma AppliedNext(s: State, e: Event)
    requires AppliedOk(s) && Enabled(s, e) && CleanEvent(e)
    ensures AppliedOk(Next(s, e))
  {
    if e.Take? {
      AppliedTake(s, e.w);
    } else if e.Finish? {
      AppliedFinish(s, e.w);
    } else {
      AppliedOther(s, e);
    }
  }

  lemma DeliveryInit(s: State)
    requires Init(s)
    ensures PushedOk(s) && AppliedOk(s)
  {
    forall job ensures multiset(s.applied)[job] + Flying(s.workers, job) == multiset(s.taken)[job] {
      NoneFlying(s.workers, job);
    }
  }

  lemma {:induction false} DeliveryRun(s0: State, es: seq<Event>)
    requires Init(s0) && Exec(s0, es).Some? && Clean(es)
    ensures PushedOk(Exec(s0, es).value) && AppliedOk(Exec(s0, es).value)
  {
    if es == [] {
      DeliveryInit(s0);
    } else {
      var front := es[..|es| - 1];
      DeliveryRun(s0, front);
      assert CleanEvent(es[|es| - 1]);
      PushedNext(Exec(s0, front).value, es[|es| - 1]);
      AppliedNext(Exec(s0, front).value, es[|es| - 1]);
    }
  }

  // ---- order does not matter for counters ----

  lemma {:induction false} PollsConcat(a: seq<Job>, b: seq<Job>)
    ensures Polls(a + b) == Polls(a) + Polls(b)
  {
    if b == [] {
      assert a + b == a;
    } else {
      PollsConcat(a, b[..|b| - 1]);
      assert (a + b)[..|a + b| - 1] == a + b[..|b| - 1];
    }
  }

  lemma {:induction false} PollsSnoc(a: seq<Job>, x: Job)
    ensures Polls(a + [x]) == Polls(a) + x.snap.counter
  {
    assert (a + [x])[..|a|] == a;
  }

  lemma {:induction false} PollsWithout(b: seq<Job>, j: nat)
    requires j < |b|
    ensures Polls(b) == Polls(Without(b, j)) + b[j].snap.counter
  {
    var front, back := b[..j], b[j + 1..];
    assert b == front + [b[j]] + back;
    PollsConcat(front + [b[j]], back);
    PollsSnoc(front, b[j]);
    PollsConcat(front, back);
  }

  lemma {:induction false} PollsPermuted(a: seq<Job>, b: seq<Job>)
    requires multiset(a) == multiset(b)
    ensures Polls(a) == Polls(b)
    decreases |a|
  {
    assert |a| == |multiset(a)| == |multiset(b)| == |b|;
    if a != [] {
      var n := |a| - 1;
      assert a[n] in multiset(b);
      var j :| 0 <= j < |b| && b[j] == a[n];
      WithoutMultiset(a, n);
      WithoutMultiset(b, j);
      PollsPermuted(Without(a, n), Without(b, j));
      PollsWithout(a, n);
      PollsWithout(b, j);
    }
  }

  // ---- the server's contents ----

  lemma OnlyCounter(s: Store, name: string, d: Int64, total: int)
    requires s.counters.Keys <= {name} && Count(s, name) == Wrap(total)
    ensures AddTo(s, name, d).counters == map[name := Wrap(total + d)]
  {
    WrapAdd(total, d);
    assert s.counters[name := Wrap(total + d)] == map[name := Wrap(total + d)];
  }

  ghost predicate AllReports(jobs: seq<Job>) {
    forall i :: 0 <= i < |jobs| ==> Reports(jobs[i].ms, jobs[i].snap)
  }

  lemma ServedStep(jobs: seq<Job>)
    requires jobs != [] && AllReports(jobs)
    ensures var front, snap := jobs[..|jobs| - 1], jobs[|jobs| - 1].snap;
            && AllReports(front)
            && Served(jobs) == AddTo(Served(front).(gauges := Served(front).gauges + snap.gauges), POLL_COUNT, snap.counter)
  {
    var n := |jobs| - 1;
    ReportEffect(Served(jobs[..n]), jobs[n].ms, jobs[n].snap);
  }

  /** In whatever order reports arrive, the one counter is the wrapped sum of theirs. */
  lemma {:induction false} ServedCounters(jobs: seq<Job>)
    requires AllReports(jobs)
    ensures Served(jobs).counters.Keys == (if jobs == [] then {} else {POLL_COUNT})
    ensures Count(Served(jobs), POLL_COUNT) == Wrap(Polls(jobs))
  {
    if jobs != [] {
      ServedCounters(jobs[..|jobs| - 1]);
      ServedCountersStep(jobs);
    }
  }

  lemma {:induction false} ServedCountersStep(jobs: seq<Job>)
    requires jobs != [] && AllReports(jobs)
    requires Served(jobs[..|jobs| - 1]).counters.Keys <= {POLL_COUNT}
    requires Count(Served(jobs[..|jobs| - 1]), POLL_COUNT) == Wrap(Polls(jobs[..|jobs| - 1]))
    ensures Served(jobs).counters.Keys == {POLL_COUNT} && Count(Served(jobs), POLL_COUNT) == Wrap(Polls(jobs))
  {
    var front, snap := jobs[..|jobs| - 1], jobs[|jobs| - 1].snap;
    ServedStep(jobs);
    OnlyCounter(Served(front).(gauges := Served(front).gauges + snap.gauges), POLL_COUNT, snap.counter, Polls(front));
  }

  lemma {:induction false} CompleteMeansAllApplied(s0: State, es: seq<Event>)
    requires Init(s0) && Exec(s0, es).Some? && Clean(es) && Complete(Exec(s0, es).value)
    ensures var s := Exec(s0, es).value;
            && s.pushed != [] && Growing(s.pushed)
            && multiset(s.applied) == multiset(s.pushed)
            && s.server == Served(s.applied) && AllReports(s.applied)
  {
    EverythingPushedIsAttempted(s0, es);
    InvRun(s0, es);
    DeliveryRun(s0, es);
    var s := Exec(s0, es).value;
    forall job ensures multiset(s.applied)[job] == multiset(s.pushed)[job] {
      NoneFlying(s.workers, job);
    }
    forall i | 0 <= i < |s.applied| ensures Reports(s.applied[i].ms, s.applied[i].snap) {
      assert s.applied[i] in multiset(s.pushed);
      assert s.applied[i] in s.pushed;
    }
  }

  /** PollCount on the server, for every rate limit and every interleaving: the wrapped sum of
      the counters of all pushed snapshots, and the only counter there. */
  lemma {:induction false} ServerCounters(s0: State, es: seq<Event>)
    requires Init(s0) && Exec(s0, es).Some? && Clean(es) && Complete(Exec(s0, es).value)
    ensures var s := Exec(s0, es).value;
            s.server.counters == map[POLL_COUNT := Wrap(Polls(s.pushed))]
  {
    CompleteMeansAllApplied(s0, es);
    var s := Exec(s0, es).value;
    PollsPermuted(s.applied, s.pushed);
    ServedCounters(s.applied);
    assert |s.applied| == |multiset(s.applied)| == |multiset(s.pushed)| == |s.pushed|;
    assert POLL_COUNT in s.server.counters;
  }

  // ---- poll counters in terms of the polls of the run ----

  /** How often the runtime collector polled. */
  function Polled(es: seq<Event>): nat {
    if es == [] then 0 else Polled(es[..|es| - 1]) + (if es[|es| - 1].Collect? then 1 else 0)
  }

  /** How many of those polls came before the last snapshot the reporter took. */
  function PolledAtSnap(es: seq<Event>): nat {
    if es == [] then 0
    else if es[|es| - 1].Snap? || es[|es| - 1].FlushSnap? then Polled(es[..|es| - 1])
    else PolledAtSnap(es[..|es| - 1])
  }

  /** For each report pushed, the polls before its snapshot. */
  function PushedPolls(es: seq<Event>): seq<nat> {
    if es == [] then []
    else
      PushedPolls(es[..|es| - 1])
      + (if es[|es| - 1].Push? || es[|es| - 1].FlushPush? then [PolledAtSnap(es[..|es| - 1])] else [])
  }

  predicate CountersOk(jobs: seq<Job>, ns: seq<nat>) {
    |ns| == |jobs| && forall i :: 0 <= i < |jobs| ==> jobs[i].snap.counter == Wrap(ns[i])
  }

  predicate PollsOk(s: State, es: seq<Event>) {
    && s.metrics.counter == Wrap(Polled(es))
    && (Carries(s.reporter) ==> s.reporter.snap.counter == Wrap(PolledAtSnap(es)))
    && PolledAtSnap(es) <= Polled(es)
    && CountersOk(s.pushed, PushedPolls(es))
    && forall i :: 0 <= i < |PushedPolls(es)| ==> PushedPolls(es)[i] <= Polled(es)
  }

  lemma {:induction false} PollsPush(s: State, es: seq<Event>, e: Event)
    requires PollsOk(s, es) && Enabled(s, e) && (e.Push? || e.FlushPush?)
    requires Polled(es + [e]) == Polled(es) && PolledAtSnap(es + [e]) == PolledAtSnap(es)
    requires PushedPolls(es + [e]) == PushedPolls(es) + [PolledAtSnap(es)]
    ensures PollsOk(Next(s, e), es + [e])
  {
    var t := Next(s, e);
    var job := t.pushed[|s.pushed|];
    assert t.pushed == s.pushed + [job] && job.snap == s.reporter.snap;
  }

  lemma PollsCollect(s: State, es: seq<Event>, e: Event)
    requires PollsOk(s, es) && Enabled(s, e) && e.Collect?
    requires Polled(es + [e]) == Polled(es) + 1 && PolledAtSnap(es + [e]) == PolledAtSnap(es)
    requires PushedPolls(es + [e]) == PushedPolls(es)
    ensures PollsOk(Next(s, e), es + [e])
  {
    WrapAdd(Polled(es), 1);
  }

  lemma PollsOther(s: State, es: seq<Event>, e: Event)
    requires PollsOk(s, es) && Enabled(s, e) && !e.Collect? && !e.Push? && !e.FlushPush?
    requires Polled(es + [e]) == Polled(es) && PushedPolls(es + [e]) == PushedPolls(es)
    requires PolledAtSnap(es + [e]) == if e.Snap? || e.FlushSnap? then Polled(es) else PolledAtSnap(es)
    ensures PollsOk(Next(s, e), es + [e])
  {
    if e.Finish? {
      DeliverFrame(s, s.workers[e.w].job, e.copies);
    }
    var t := Next(s, e);
    assert t.pushed == s.pushed && t.metrics.counter == s.metrics.counter;
  }

  lemma {:induction false} PollsNext(s: State, es: seq<Event>, e: Event)
    requires PollsOk(s, es) && Enabled(s, e)
    ensures PollsOk(Next(s, e), es + [e])
  {
    assert (es + [e])[..|es|] == es;
    if e.Push? || e.FlushPush? {
      PollsPush(s, es, e);
    } else {
      assert PushedPolls(es + [e]) == PushedPolls(es);
      if e.Collect? {
        PollsCollect(s, es, e);
      } else {
        PollsOther(s, es, e);
      }
    }
  }

  /** A report's counter is the wrapped number of polls before its snapshot. */
  lemma {:induction false} PushedCounters(s0: State, es: seq<Event>)
    requires Init(s0) && Exec(s0, es).Some?
    ensures PollsOk(Exec(s0, es).value, es)
  {
    if es != [] {
      var front, e := es[..|es| - 1], es[|es| - 1];
      PushedCounters(s0, front);
      PollsNext(Exec(s0, front).value, front, e);
      assert front + [e] == es;
    }
  }

  function Total(ns: seq<nat>): nat {
    if ns == [] then 0 else Total(ns[..|ns| - 1]) + ns[|ns| - 1]
  }

  lemma {:induction false} PollsAreTotal(jobs: seq<Job>, ns: seq<nat>)
    requires CountersOk(jobs, ns)
    ensures Wrap(Polls(jobs)) == Wrap(Total(ns))
  {
    if jobs != [] {
      var n := |jobs| - 1;
      PollsAreTotal(jobs[..n], ns[..n]);
      SumWraps(Polls(jobs[..n]), Total(ns[..n]), ns[n]);
    }
  }

  lemma SumWraps(a: int, b: int, c: int)
    requires Wrap(a) == Wrap(b)
    ensures Wrap(a + Wrap(c)) == Wrap(b + c)
  {
    WrapAdd(c, a);
    WrapAdd(a, c);
    WrapAdd(b, c);
  }

  lemma {:induction false} TotalBound(ns: seq<nat>, m: nat)
    requires forall i :: 0 <= i < |ns| ==> ns[i] <= m
    ensures Total(ns) <= |ns| * m
    ensures Total(ns) == 0 <==> forall i :: 0 <= i < |ns| ==> ns[i] == 0
  {
    if ns != [] {
      var n := |ns| - 1;
      TotalBound(ns[..n], m);
      assert n * m + m == |ns| * m;
      assert forall i :: 0 <= i < n ==> ns[..n][i] == ns[i];
    }
  }

  /** The server's total against the agent's count at the last push, report by report. */
  lemma {:induction false} TotalAgainstLast(server: Store, jobs: seq<Job>, ns: seq<nat>)
    requires jobs != [] && CountersOk(jobs, ns) && server.counters == map[POLL_COUNT := Wrap(Polls(jobs))]
    ensures Count(server, POLL_COUNT) == Wrap(Total(ns))
    ensures Count(server, POLL_COUNT) == jobs[|ns| - 1].snap.counter <==> Vanishes(Total(ns[..|ns| - 1]))
  {
    PollsAreTotal(jobs, ns);
    WrapEqualIff(Total(ns), ns[|ns| - 1]);
  }

  /** The counter is cumulative and is sent whole every time. So the server's PollCount is the
      wrapped sum, over the reports, of the polls before each; it is the agent's own count at
      the last push iff the earlier reports' polls sum to a multiple of 2^64. */
  lemma {:induction false} PollCountIsTrueIff(s0: State, es: seq<Event>)
    requires Init(s0) && Exec(s0, es).Some? && Clean(es) && Complete(Exec(s0, es).value)
    ensures var s, ns := Exec(s0, es).value, PushedPolls(es);
            && |ns| == |s.pushed| > 0
            && Count(s.server, POLL_COUNT) == Wrap(Total(ns))
            && s.pushed[|ns| - 1].snap.counter == Wrap(ns[|ns| - 1])
            && (Count(s.server, POLL_COUNT) == s.pushed[|ns| - 1].snap.counter <==> Vanishes(Total(ns[..|ns| - 1])))
  {
    ServerCounters(s0, es);
    EverythingPushedIsAttempted(s0, es);
    PushedCounters(s0, es);
    TotalAgainstLast(Exec(s0, es).value.server, Exec(s0, es).value.pushed, PushedPolls(es));
  }

  lemma SmallTotal(ns: seq<nat>, m: nat)
    requires ns != [] && |ns| * m < TWO64 && forall i :: 0 <= i < |ns| ==> ns[i] <= m
    ensures Vanishes(Total(ns[..|ns| - 1])) <==> forall i :: 0 <= i < |ns| - 1 ==> ns[i] == 0
  {
    var front := ns[..|ns| - 1];
    TotalBound(front, m);
    assert |front| * m + m == |ns| * m;
    SmallMultiple(Total(front));
    assert forall i :: 0 <= i < |front| ==> front[i] == ns[i];
  }

  /** While reports times polls stay below 2^64: it is right iff every report but the last was
      snapped before the first poll. */
  lemma {:induction false} PollCountIsTrueIfUnpolled(s0: State, es: seq<Event>)
    requires Init(s0) && Exec(s0, es).Some? && Clean(es) && Complete(Exec(s0, es).value)
    requires |PushedPolls(es)| * Polled(es) < TWO64
    ensures var s, ns := Exec(s0, es).value, PushedPolls(es);
            && |ns| == |s.pushed| > 0
            && (Count(s.server, POLL_COUNT) == s.pushed[|ns| - 1].snap.counter <==>
                forall i :: 0 <= i < |ns| - 1 ==> ns[i] == 0)
  {
    PollCountIsTrueIff(s0, es);
    PushedCounters(s0, es);
    SmallTotal(PushedPolls(es), Polled(es));
  }

  lemma SmallMultiple(x: nat)
    requires x < TWO64
    ensures Vanishes(x) <==> x == 0
  {
  }
}
