/** The pipeline read off its events: for every run, what was pushed, passed to SendBatch and
    applied by the server is a function of the event sequence alone. */
module Trace {
  import opened Model
  import opened Storage
  import opened Collecting
  import opened Pipeline
  import opened Delivery

  // ---- what the events say ----

  /** The collector: every sample overwrites its keys, a runtime poll also counts. */
  function CollectorAfter(es: seq<Event>): Snapshot {
    if es == [] then Snapshot(map[], 0)
    else
      var before := CollectorAfter(es[..|es| - 1]);
      match es[|es| - 1]
      case Collect(sample) => Snapshot(before.gauges + sample, Wrap(before.counter + 1))
      case CollectExtra(sample) => Snapshot(before.gauges + sample, before.counter)
      case _ => before
  }

  predicate Cancelled(es: seq<Event>) {
    exists i :: 0 <= i < |es| && es[i].Cancel?
  }

  /** A snapshot and the batch made of it. */
  datatype Offer = Offer(snap: Snapshot, ms: seq<Metrics>)

  /** The snapshot the reporter took last, on either branch. */
  function LastOffer(es: seq<Event>): Option<Offer> {
    if es == [] then None
    else match es[|es| - 1]
      case Snap(ms) => Some(Offer(CollectorAfter(es[..|es| - 1]), ms))
      case FlushSnap(ms) => Some(Offer(CollectorAfter(es[..|es| - 1]), ms))
      case _ => LastOffer(es[..|es| - 1])
  }

  /** Everything pushed: each push sends the last snapshot taken. */
  function PushedJobs(es: seq<Event>): seq<Job> {
    if es == [] then []
    else
      var front, e := es[..|es| - 1], es[|es| - 1];
      var before := PushedJobs(front);
      if (e.Push? || e.FlushPush?) && LastOffer(front).Some? then
        var offer := LastOffer(front).value;
        before + [Job(|before|, offer.snap, offer.ms, e.FlushPush?, Cancelled(front))]
      else before
  }

  /** How many batches were passed to SendBatch. */
  function Takes(es: seq<Event>): nat {
    if es == [] then 0 else Takes(es[..|es| - 1]) + (if es[|es| - 1].Take? then 1 else 0)
  }

  /** Which batch, in push order, worker `w` is sending. */
  function Holding(es: seq<Event>, w: nat): Option<nat> {
    if es == [] then None
    else
      var front, e := es[..|es| - 1], es[|es| - 1];
      if e == Take(w) then Some(Takes(front))
      else if e.Finish? && e.w == w then None
      else Holding(front, w)
  }

  function Repeat(job: Job, copies: nat): seq<Job> {
    if copies == 0 then [] else Repeat(job, copies - 1) + [job]
  }

  /** What the server applied, in order: a finished batch as often as it took effect. */
  function AppliedJobs(es: seq<Event>): seq<Job> {
    if es == [] then []
    else
      var front, e := es[..|es| - 1], es[|es| - 1];
      AppliedJobs(front) +
      (if e.Finish? && Holding(front, e.w).Some? && Holding(front, e.w).value < |PushedJobs(front)|
       then Repeat(PushedJobs(front)[Holding(front, e.w).value], e.copies) else [])
  }

  // ---- and what the goroutines do ----

  predicate ReporterTraced(s: State, es: seq<Event>) {
    && s.metrics == CollectorAfter(es)
    && s.cancelled == Cancelled(es)
    && (Carries(s.reporter) ==> LastOffer(es) == Some(Offer(s.reporter.snap, s.reporter.ms)))
    && s.pushed == PushedJobs(es)
  }

  ghost predicate WorkersTraced(s: State, es: seq<Event>) {
    && |s.taken| == Takes(es)
    && (forall w: nat :: w < |s.workers| && s.workers[w].Sending? ==> Holding(es, w) == Some(s.workers[w].job.id))
    && s.applied == AppliedJobs(es)
    && s.server == Served(AppliedJobs(es))
  }

  lemma CancelledSnoc(es: seq<Event>, e: Event)
    ensures Cancelled(es + [e]) <==> Cancelled(es) || e.Cancel?
  {
    if Cancelled(es) {
      var i :| 0 <= i < |es| && es[i].Cancel?;
      assert (es + [e])[i].Cancel?;
    }
    if e.Cancel? {
      assert (es + [e])[|es|].Cancel?;
    }
  }

  lemma ReporterPush(s: State, es: seq<Event>, e: Event)
    requires ReporterTraced(s, es) && Enabled(s, e) && (e.Push? || e.FlushPush?)
    ensures ReporterTraced(Next(s, e), es + [e])
  {
    assert (es + [e])[..|es|] == es;
    CancelledSnoc(es, e);
    var t := Next(s, e);
    var job := Job(|s.pushed|, s.reporter.snap, s.reporter.ms, e.FlushPush?, s.cancelled);
    assert t.pushed == s.pushed + [job];
  }

  lemma ReporterOther(s: State, es: seq<Event>, e: Event)
    requires ReporterTraced(s, es) && Enabled(s, e) && !e.Push? && !e.FlushPush?
    ensures ReporterTraced(Next(s, e), es + [e])
  {
    assert (es + [e])[..|es|] == es;
    CancelledSnoc(es, e);
    if e.Finish? {
      DeliverFrame(s, s.workers[e.w].job, e.copies);
    }
    assert PushedJobs(es + [e]) == PushedJobs(es);
    assert Next(s, e).pushed == s.pushed;
  }

  lemma {:induction false} DeliverApplied(s: State, job: Job, copies: nat)
    ensures Deliver(s, job, copies).applied == s.applied + Repeat(job, copies)
  {
    if copies == 0 {
      assert s.applied + [] == s.applied;
    } else {
      DeliverApplied(s, job, copies - 1);
    }
  }

  lemma {:induction false} DeliverServed(s: State, job: Job, copies: nat)
    requires s.server == Served(s.applied)
    ensures Deliver(s, job, copies).server == Served(Deliver(s, job, copies).applied)
  {
    if copies > 0 {
      DeliverServed(s, job, copies - 1);
      ServedSnoc(Deliver(s, job, copies - 1).applied, job);
    }
  }

  lemma WorkersFinish(s: State, es: seq<Event>, w: nat, copies: nat)
    requires Inv(s) && ReporterTraced(s, es) && WorkersTraced(s, es) && Enabled(s, Finish(w, copies))
    ensures WorkersTraced(Next(s, Finish(w, copies)), es + [Finish(w, copies)])
  {
    var e, job := Finish(w, copies), s.workers[w].job;
    DeliverFrame(s, job, copies);
    DeliverApplied(s, job, copies);
    DeliverServed(s, job, copies);
    AppliedFinished(s, es, w, copies);
    HoldingSnoc(es, e);
  }

  lemma AppliedFinished(s: State, es: seq<Event>, w: nat, copies: nat)
    requires Inv(s) && ReporterTraced(s, es) && WorkersTraced(s, es) && Enabled(s, Finish(w, copies))
    ensures AppliedJobs(es + [Finish(w, copies)]) == AppliedJobs(es) + Repeat(s.workers[w].job, copies)
  {
    assert (es + [Finish(w, copies)])[..|es|] == es;
    assert WorkerOk(s, w);
    assert s.pushed[s.workers[w].job.id] == s.taken[s.workers[w].job.id];
  }

  lemma HoldingSnoc(es: seq<Event>, e: Event)
    ensures Takes(es + [e]) == Takes(es) + (if e.Take? then 1 else 0)
    ensures forall v: nat :: Holding(es + [e], v) ==
                             if e == Take(v) then Some(Takes(es)) else if e.Finish? && e.w == v then None else Holding(es, v)
  {
    assert (es + [e])[..|es|] == es;
  }

  lemma WorkersOther(s: State, es: seq<Event>, e: Event)
    requires Inv(s) && ReporterTraced(s, es) && WorkersTraced(s, es) && Enabled(s, e) && !e.Finish?
    ensures WorkersTraced(Next(s, e), es + [e])
  {
    assert (es + [e])[..|es|] == es;
    assert AppliedJobs(es + [e]) == AppliedJobs(es);
    HoldingSnoc(es, e);
    if e.Take? {
      assert s.pushed[|s.taken|] == s.queue[0];
    }
    var t := Next(s, e);
    assert t.applied == s.applied && t.server == s.server;
  }

  /** In every run, for every interleaving: the reports pushed are those of the snapshots taken
      before them, marked final by the flush branches and dated by the cancel; workers take them
      in push order; the server has applied what finished, each as often as it took effect. */
  lemma {:induction false} RunIsItsEvents(s0: State, es: seq<Event>)
    requires Init(s0) && Exec(s0, es).Some?
    ensures var s := Exec(s0, es).value;
            && ReporterTraced(s, es) && WorkersTraced(s, es)
            && Takes(es) <= |PushedJobs(es)| && s.taken == PushedJobs(es)[..Takes(es)]
  {
    if es != [] {
      var front, e := es[..|es| - 1], es[|es| - 1];
      RunIsItsEvents(s0, front);
      InvRun(s0, front);
      TraceNext(Exec(s0, front).value, front, e);
      assert front + [e] == es;
    }
    InvRun(s0, es);
    var s := Exec(s0, es).value;
    assert s.taken == s.pushed[..|s.taken|];
  }

  lemma TraceNext(s: State, es: seq<Event>, e: Event)
    requires Inv(s) && ReporterTraced(s, es) && WorkersTraced(s, es) && Enabled(s, e)
    ensures ReporterTraced(Next(s, e), es + [e]) && WorkersTraced(Next(s, e), es + [e])
  {
    if e.Push? || e.FlushPush? {
      ReporterPush(s, es, e);
    } else {
      ReporterOther(s, es, e);
    }
    if e.Finish? {
      WorkersFinish(s, es, e.w, e.copies);
    } else {
      WorkersOther(s, es, e);
    }
  }

  /** Nothing the reporter, the workers or the server do holds up a collector or the cancel. */
  lemma CollectorsNeverBlock(s0: State, es: seq<Event>, sample: map<string, Float64>)
    requires Init(s0) && Exec(s0, es).Some?
    ensures var s := Exec(s0, es).value;
            && (!s.runtimeLoop.Stopped? ==> Enabled(s, Collect(sample)))
            && (!s.extraLoop.Stopped? ==> Enabled(s, CollectExtra(sample)))
            && (!Cancelled(es) ==> Enabled(s, Cancel))
            && (Cancelled(es) ==> !Enabled(s, Cancel))
  {
    RunIsItsEvents(s0, es);
    InvRun(s0, es);
  }

  lemma ExecSnoc(s: State, es: seq<Event>, e: Event)
    ensures Exec(s, es + [e]) ==
            if Exec(s, es).Some? && Enabled(Exec(s, es).value, e) then Some(Next(Exec(s, es).value, e)) else None
  {
    assert (es + [e])[..|es|] == es;
  }

  /** When a batch is on offer and the context is done, the inner Done branch can be taken, and
      with room in the channel it flushes the very batch on offer: no new snapshot is taken. */
  lemma InnerDoneFlushesOffer(s0: State, es: seq<Event>, ms: seq<Metrics>)
    requires Init(s0) && Exec(s0, es + [Snap(ms)]).Some? && Cancelled(es)
    requires |Exec(s0, es + [Snap(ms)]).value.queue| < s0.limit
    ensures var r := Exec(s0, es + [Snap(ms)] + [InnerDone] + [FlushPush]);
            && r.Some?
            && r.value.pushed == PushedJobs(es) + [Job(|PushedJobs(es)|, CollectorAfter(es), ms, true, true)]
  {
    InnerDoneRuns(s0, es, ms);
    RunIsItsEvents(s0, es + [Snap(ms)] + [InnerDone] + [FlushPush]);
    SnapOffers(es, ms);
    InnerDoneKeeps(es + [Snap(ms)]);
    FlushPushes(es + [Snap(ms)] + [InnerDone]);
  }

  lemma InnerDoneRuns(s0: State, es: seq<Event>, ms: seq<Metrics>)
    requires Init(s0) && Exec(s0, es + [Snap(ms)]).Some? && Cancelled(es)
    requires |Exec(s0, es + [Snap(ms)]).value.queue| < s0.limit
    ensures Exec(s0, es + [Snap(ms)] + [InnerDone] + [FlushPush]).Some?
  {
    var a := es + [Snap(ms)];
    SnapOffers(es, ms);
    RunIsItsEvents(s0, a);
    InvRun(s0, a);
    ExecSnoc(s0, es, Snap(ms));
    FlushEnabled(Exec(s0, a).value);
    ExecSnoc(s0, a, InnerDone);
    ExecSnoc(s0, a + [InnerDone], FlushPush);
  }

  lemma FlushEnabled(s: State)
    requires s.reporter.Offering? && s.cancelled && |s.queue| < s.limit
    ensures Enabled(s, InnerDone) && Enabled(Next(s, InnerDone), FlushPush)
  {
  }

  lemma SnapOffers(es: seq<Event>, ms: seq<Metrics>)
    ensures LastOffer(es + [Snap(ms)]) == Some(Offer(CollectorAfter(es), ms))
    ensures PushedJobs(es + [Snap(ms)]) == PushedJobs(es) && Cancelled(es + [Snap(ms)]) == Cancelled(es)
  {
    assert (es + [Snap(ms)])[..|es|] == es;
    CancelledSnoc(es, Snap(ms));
  }

  lemma InnerDoneKeeps(es: seq<Event>)
    ensures LastOffer(es + [InnerDone]) == LastOffer(es)
    ensures PushedJobs(es + [InnerDone]) == PushedJobs(es) && Cancelled(es + [InnerDone]) == Cancelled(es)
  {
    assert (es + [InnerDone])[..|es|] == es;
    CancelledSnoc(es, InnerDone);
  }

  lemma FlushPushes(es: seq<Event>)
    requires LastOffer(es).Some?
    ensures var offer := LastOffer(es).value;
            PushedJobs(es + [FlushPush]) ==
            PushedJobs(es) + [Job(|PushedJobs(es)|, offer.snap, offer.ms, true, Cancelled(es))]
  {
    assert (es + [FlushPush])[..|es|] == es;
  }

  /** With any number of copies of each batch: the server's PollCount is the wrapped sum of the
      counters of everything it applied. */
  lemma PollCountOfApplied(s0: State, es: seq<Event>)
    requires Init(s0) && Exec(s0, es).Some?
    ensures Count(Exec(s0, es).value.server, "PollCount") == Wrap(Polls(AppliedJobs(es)))
  {
    RunIsItsEvents(s0, es);
    AppliedAreReports(s0, es);
    ServedCounters(AppliedJobs(es));
  }

  lemma {:induction false} RepeatReports(job: Job, copies: nat)
    requires Reports(job.ms, job.snap)
    ensures AllReports(Repeat(job, copies))
  {
    if copies > 0 {
      RepeatReports(job, copies - 1);
    }
  }

  lemma {:induction false} PushedRun(s0: State, es: seq<Event>)
    requires Init(s0) && Exec(s0, es).Some?
    ensures PushedOk(Exec(s0, es).value)
  {
    if es == [] {
      DeliveryInit(s0);
    } else {
      PushedRun(s0, es[..|es| - 1]);
      PushedNext(Exec(s0, es[..|es| - 1]).value, es[|es| - 1]);
    }
  }

  lemma {:induction false} AppliedAreReports(s0: State, es: seq<Event>)
    requires Init(s0) && Exec(s0, es).Some?
    ensures AllReports(AppliedJobs(es))
  {
    if es != [] {
      var front, e := es[..|es| - 1], es[|es| - 1];
      AppliedAreReports(s0, front);
      PushedRun(s0, front);
      RunIsItsEvents(s0, front);
      if e.Finish? && Holding(front, e.w).Some? && Holding(front, e.w).value < |PushedJobs(front)| {
        RepeatReports(PushedJobs(front)[Holding(front, e.w).value], e.copies);
      }
    }
  }
}
