/** internal/agent/agent.go: `Run` as a transition system. One event is one atomic step of
    one goroutine (worker, reporter, collector) or of the outside world, so every
    interleaving, every `select` choice and every moment of cancellation is an event
    sequence. A send on, or a close of, a closed channel is not ruled out by the events:
    that it never happens is proved. */
module Pipeline {
  import opened Model
  import opened Storage
  import opened Collecting

  /** A batch on the channel, numbered in push order. `final` marks a push made by one of the
      two flush branches; `cancelled` is whether the context was done when it was pushed. */
  datatype Job = Job(id: nat, snap: Snapshot, ms: seq<Metrics>, final: bool, cancelled: bool)

  datatype Reporter =
    | Selecting                                       // at the outer select
    | Ticked                                          // ticker branch taken
    | Offering(snap: Snapshot, ms: seq<Metrics>)      // at the inner select
    | Flushing                                        // outer ctx.Done branch taken
    | FlushOffering(snap: Snapshot, ms: seq<Metrics>) // blocked on the flush push
    | Returning                                       // runReport returned
    | Closed                                          // deferred close done
    | Gone                                            // deferred wg.Done done

  datatype Worker = Ready | Sending(job: Job) | Exited

  datatype Loop = Starting | Looping | Stopped

  datatype State = State(
    limit: nat,
    cancelled: bool,
    reporter: Reporter,
    queue: seq<Job>,
    closed: bool,
    workers: seq<Worker>,
    runtimeLoop: Loop,
    extraLoop: Loop,
    metrics: Snapshot,     // the collector
    pushed: seq<Job>,      // everything ever sent on the channel
    taken: seq<Job>,       // everything ever passed to SendBatch, in order
    finished: set<nat>,    // ids whose SendBatch returned
    applied: seq<Job>,     // what the server applied, in order
    server: Store)

  datatype Event =
    | Cancel
    | Collect(sample: map<string, Float64>)   // whatever values were read
    | StopCollect
    | CollectExtra(sample: map<string, Float64>)
    | StopExtra
    | Tick
    | Snap(ms: seq<Metrics>)
    | Push
    | InnerDone
    | OuterDone
    | FlushSnap(ms: seq<Metrics>)
    | FlushPush
    | Close
    | ReporterExit
    | Take(w: nat)
    | Finish(w: nat, copies: nat)   // SendBatch returned; the server applied it `copies` times
    | Exit(w: nat)

  ghost predicate Enabled(s: State, e: Event) {
    match e
    case Cancel => !s.cancelled
    case Collect(_) => !s.runtimeLoop.Stopped?
    case StopCollect => s.runtimeLoop.Looping? && s.cancelled
    case CollectExtra(_) => s.extraLoop.Looping?
    case StopExtra => s.extraLoop.Looping? && s.cancelled
    case Tick => s.reporter.Selecting?
    case Snap(ms) => s.reporter.Ticked? && Reports(ms, s.metrics)
    case Push => s.reporter.Offering? && |s.queue| < s.limit
    case InnerDone => s.reporter.Offering? && s.cancelled
    case OuterDone => s.reporter.Selecting? && s.cancelled
    case FlushSnap(ms) => s.reporter.Flushing? && Reports(ms, s.metrics)
    case FlushPush => s.reporter.FlushOffering? && |s.queue| < s.limit
    case Close => s.reporter.Returning?
    case ReporterExit => s.reporter.Closed?
    case Take(w) => w < |s.workers| && s.workers[w].Ready? && s.queue != []
    case Finish(w, _) => w < |s.workers| && s.workers[w].Sending?
    case Exit(w) => w < |s.workers| && s.workers[w].Ready? && s.queue == [] && s.closed
  }

  function Enqueue(s: State, snap: Snapshot, ms: seq<Metrics>, final: bool): State {
    var job := Job(|s.pushed|, snap, ms, final, s.cancelled);
    s.(queue := s.queue + [job], pushed := s.pushed + [job])
  }

  function Deliver(s: State, job: Job, copies: nat): State {
    if copies == 0 then s
    else
      var t := Deliver(s, job, copies - 1);
      t.(applied := t.applied + [job], server := ApplyAll(t.server, job.ms))
  }

  ghost function Next(s: State, e: Event): State
    requires Enabled(s, e)
  {
    match e
    case Cancel => s.(cancelled := true)
    case Collect(sample) => s.(metrics := Collected(s.metrics, sample), runtimeLoop := Looping)
    case StopCollect => s.(runtimeLoop := Stopped)
    case CollectExtra(sample) => s.(metrics := ExtraCollected(s.metrics, sample))
    case StopExtra => s.(extraLoop := Stopped)
    case Tick => s.(reporter := Ticked)
    case Snap(ms) => s.(reporter := Offering(s.metrics, ms))
    case Push => Enqueue(s, s.reporter.snap, s.reporter.ms, false).(reporter := Selecting)
    case InnerDone => s.(reporter := FlushOffering(s.reporter.snap, s.reporter.ms))
    case OuterDone => s.(reporter := Flushing)
    case FlushSnap(ms) => s.(reporter := FlushOffering(s.metrics, ms))
    case FlushPush => Enqueue(s, s.reporter.snap, s.reporter.ms, true).(reporter := Returning)
    case Close => s.(reporter := Closed, closed := true)
    case ReporterExit => s.(reporter := Gone)
    case Take(w) => s.(workers := s.workers[w := Sending(s.queue[0])], queue := s.queue[1..], taken := s.taken + [s.queue[0]])
    case Finish(w, copies) =>
      var job := s.workers[w].job;
      Deliver(s, job, copies).(workers := s.workers[w := Ready], finished := s.finished + {job.id})
    case Exit(w) => s.(workers := s.workers[w := Exited])
  }

  ghost function Exec(s: State, es: seq<Event>): Option<State> {
    if es == [] then Some(s)
    else match Exec(s, es[..|es| - 1])
      case None => None
      case Some(m) => var e := es[|es| - 1]; if Enabled(m, e) then Some(Next(m, e)) else None
  }

  ghost predicate Init(s: State) {
    && 0 < s.limit
    && s == State(s.limit, false, Selecting, [], false, s.workers, Starting, Looping, Snapshot(map[], 0),
                  [], [], {}, [], EMPTY)
    && |s.workers| == s.limit
    && forall w :: 0 <= w < |s.workers| ==> s.workers[w].Ready?
  }

  /** When `wg.Wait` returns: every goroutine has run its deferred `wg.Done`. */
  predicate Complete(s: State) {
    && s.reporter.Gone? && s.runtimeLoop.Stopped? && s.extraLoop.Stopped?
    && forall w :: 0 <= w < |s.workers| ==> s.workers[w].Exited?
  }

  predicate ReporterEvent(e: Event) {
    e.Tick? || e.Snap? || e.Push? || e.InnerDone? || e.OuterDone? || e.FlushSnap? || e.FlushPush? || e.Close? || e.ReporterExit?
  }

  predicate WorkerEvent(e: Event) {
    e.Take? || e.Finish? || e.Exit?
  }

  lemma {:induction false} DeliverFrame(s: State, job: Job, copies: nat)
    ensures Deliver(s, job, copies) == s.(applied := Deliver(s, job, copies).applied, server := Deliver(s, job, copies).server)
  {
    if copies != 0 {
      DeliverFrame(s, job, copies - 1);
    }
  }

  // ---- the inductive invariant ----

  predicate Shut(r: Reporter) {
    r.Closed? || r.Gone?
  }

  predicate Flushed(r: Reporter) {
    r.Returning? || Shut(r)
  }

  /** A ctx.Done branch has been taken. */
  predicate PastDone(r: Reporter) {
    r.Flushing? || r.FlushOffering? || Flushed(r)
  }

  predicate ChannelOk(s: State) {
    && 0 < s.limit == |s.workers|
    && |s.queue| <= s.limit
    && s.pushed == s.taken + s.queue
    && (forall i :: 0 <= i < |s.pushed| ==> s.pushed[i].id == i)
    && (s.closed <==> Shut(s.reporter))
  }

  predicate WorkerOk(s: State, w: nat)
    requires w < |s.workers|
  {
    match s.workers[w]
    case Ready => true
    case Sending(j) => j.id < |s.taken| && s.taken[j.id] == j && j.id !in s.finished
    case Exited => s.closed && s.queue == []
  }

  predicate SendingId(s: State, w: int, id: nat) {
    0 <= w < |s.workers| && s.workers[w].Sending? && s.workers[w].job.id == id
  }

  ghost predicate WorkersOk(s: State) {
    && (forall w: nat :: w < |s.workers| ==> WorkerOk(s, w))
    && (forall v, w :: 0 <= v < w < |s.workers| && s.workers[v].Sending? && s.workers[w].Sending? ==>
                         s.workers[v].job.id != s.workers[w].job.id)
    && (forall i :: i in s.finished ==> i < |s.taken|)
    && (forall i: nat :: i < |s.taken| ==> i in s.finished || exists w :: SendingId(s, w, i))
  }

  predicate FlushOk(s: State) {
    && (PastDone(s.reporter) || s.runtimeLoop.Stopped? || s.extraLoop.Stopped? ==> s.cancelled)
    && !s.extraLoop.Starting?
    && (Flushed(s.reporter) ==> s.pushed != [])
    && (forall i :: 0 <= i < |s.pushed| ==> (s.pushed[i].final <==> Flushed(s.reporter) && i == |s.pushed| - 1))
    && (forall i :: 0 <= i < |s.pushed| ==> s.pushed[i].final ==> s.pushed[i].cancelled)
  }

  ghost predicate Inv(s: State) {
    ChannelOk(s) && WorkersOk(s) && FlushOk(s)
  }

  lemma ChannelPush(s: State, e: Event)
    requires Inv(s) && Enabled(s, e) && (e.Push? || e.FlushPush?)
    ensures ChannelOk(Next(s, e))
  {
    var t := Next(s, e);
    var job := t.pushed[|s.pushed|];
    assert t.pushed == s.pushed + [job] && t.queue == s.queue + [job];
    assert s.taken + (s.queue + [job]) == s.taken + s.queue + [job];
  }

  lemma ChannelTake(s: State, w: nat)
    requires Inv(s) && Enabled(s, Take(w))
    ensures ChannelOk(Next(s, Take(w)))
  {
    assert s.queue == [s.queue[0]] + s.queue[1..];
    assert s.taken + ([s.queue[0]] + s.queue[1..]) == s.taken + [s.queue[0]] + s.queue[1..];
  }

  lemma ChannelNext(s: State, e: Event)
    requires Inv(s) && Enabled(s, e)
    ensures ChannelOk(Next(s, e)) && Next(s, e).limit == s.limit
  {
    if e.Push? || e.FlushPush? {
      ChannelPush(s, e);
    } else if e.Take? {
      ChannelTake(s, e.w);
    } else if e.Finish? {
      DeliverFrame(s, s.workers[e.w].job, e.copies);
    }
  }

  lemma FlushPushed(s: State, e: Event)
    requires Inv(s) && Enabled(s, e) && (e.Push? || e.FlushPush?)
    ensures FlushOk(Next(s, e))
  {
    var t := Next(s, e);
    var n := |s.pushed|;
    assert |t.pushed| == n + 1 && t.pushed[n].final == e.FlushPush? && t.pushed[n].cancelled == s.cancelled;
    forall i | 0 <= i < |t.pushed|
      ensures t.pushed[i].final <==> e.FlushPush? && i == n
      ensures t.pushed[i].final ==> t.pushed[i].cancelled
    {
      if i < n {
        assert t.pushed[i] == s.pushed[i];
      }
    }
  }

  lemma FlushWorkers(s: State, e: Event)
    requires Inv(s) && Enabled(s, e) && WorkerEvent(e)
    ensures FlushOk(Next(s, e))
  {
    if e.Finish? {
      DeliverFrame(s, s.workers[e.w].job, e.copies);
    }
    var t := Next(s, e);
    assert t.pushed == s.pushed && t.reporter == s.reporter && t.cancelled == s.cancelled;
    assert t.runtimeLoop == s.runtimeLoop && t.extraLoop == s.extraLoop;
  }

  lemma FlushOthers(s: State, e: Event)
    requires Inv(s) && Enabled(s, e) && !e.Push? && !e.FlushPush? && !WorkerEvent(e)
    ensures FlushOk(Next(s, e))
  {
    assert Next(s, e).pushed == s.pushed;
  }

  lemma FlushNext(s: State, e: Event)
    requires Inv(s) && Enabled(s, e)
    ensures FlushOk(Next(s, e))
  {
    if e.Push? || e.FlushPush? {
      FlushPushed(s, e);
    } else if WorkerEvent(e) {
      FlushWorkers(s, e);
    } else {
      FlushOthers(s, e);
    }
  }

  lemma TakeKeepsWorkers(s: State, w: nat)
    requires Inv(s) && Enabled(s, Take(w))
    ensures WorkersOk(Next(s, Take(w)))
  {
    var t := Next(s, Take(w));
    var n := |s.taken|;
    assert s.pushed[n] == s.queue[0] && s.pushed[n].id == n;
    forall i: nat | i < |t.taken| ensures i in t.finished || exists v :: SendingId(t, v, i) {
      if i == n {
        assert SendingId(t, w, i);
      } else if i !in s.finished {
        var v :| SendingId(s, v, i);
        assert SendingId(t, v, i);
      }
    }
    forall v: nat | v < |t.workers|
      ensures WorkerOk(t, v)
      ensures v != w && t.workers[v].Sending? ==> t.workers[v].job.id < n
    {
      assert WorkerOk(s, v);
    }
  }

  lemma FinishKeepsWorkers(s: State, w: nat, copies: nat)
    requires Inv(s) && Enabled(s, Finish(w, copies))
    ensures WorkersOk(Next(s, Finish(w, copies)))
  {
    var t := Next(s, Finish(w, copies));
    DeliverFrame(s, s.workers[w].job, copies);
    forall i: nat | i < |t.taken| ensures i in t.finished || exists v :: SendingId(t, v, i) {
      if i !in t.finished {
        var v :| SendingId(s, v, i);
        assert SendingId(t, v, i);
      }
    }
    assert WorkerOk(s, w);
    forall v: nat | v < |t.workers| ensures WorkerOk(t, v) {
      assert WorkerOk(s, v);
    }
  }

  lemma OthersKeepWorkers(s: State, e: Event)
    requires Inv(s) && Enabled(s, e) && !e.Take? && !e.Finish?
    ensures WorkersOk(Next(s, e))
  {
    var t := Next(s, e);
    forall i: nat | i < |t.taken| ensures i in t.finished || exists v :: SendingId(t, v, i) {
      if i !in s.finished {
        var v :| SendingId(s, v, i);
        assert SendingId(t, v, i);
      }
    }
    forall v: nat | v < |t.workers| ensures WorkerOk(t, v) {
      assert WorkerOk(s, v);
    }
  }

  lemma InvNext(s: State, e: Event)
    requires Inv(s) && Enabled(s, e)
    ensures Inv(Next(s, e)) && Next(s, e).limit == s.limit
  {
    ChannelNext(s, e);
    FlushNext(s, e);
    match e
    case Take(w) => TakeKeepsWorkers(s, w);
    case Finish(w, copies) => FinishKeepsWorkers(s, w, copies);
    case _ => OthersKeepWorkers(s, e);
  }

  lemma {:induction false} InvRun(s: State, es: seq<Event>)
    requires Init(s) && Exec(s, es).Some?
    ensures Inv(Exec(s, es).value) && Exec(s, es).value.limit == s.limit
  {
    if es != [] {
      InvRun(s, es[..|es| - 1]);
      InvNext(Exec(s, es[..|es| - 1]).value, es[|es| - 1]);
    }
  }

  // ---- safety ----

  /** When `Run` returns, everything pushed was passed to SendBatch exactly once, in push
      order, and every such call returned; exactly one push was a final flush, it was made
      after the cancel, and nothing was pushed after it. */
  lemma EverythingPushedIsAttempted(s0: State, es: seq<Event>)
    requires Init(s0) && Exec(s0, es).Some? && Complete(Exec(s0, es).value)
    ensures var s := Exec(s0, es).value;
            && s.taken == s.pushed
            && (forall i, j :: 0 <= i < j < |s.taken| ==> s.taken[i].id != s.taken[j].id)
            && (forall i: nat :: i in s.finished <==> i < |s.pushed|)
            && s.pushed != []
            && (forall i :: 0 <= i < |s.pushed| ==> (s.pushed[i].final <==> i == |s.pushed| - 1))
            && s.pushed[|s.pushed| - 1].cancelled
            && s.closed
  {
    InvRun(s0, es);
    var s := Exec(s0, es).value;
    assert s.workers[0].Exited? && WorkerOk(s, 0);
    forall i: nat | i < |s.taken| ensures i in s.finished {
      assert forall w :: !SendingId(s, w, i);
    }
    assert s.taken == s.pushed;
  }

  /** The channel is never sent on after its close and never closed twice: in no reachable
      state can a push or a close happen on a closed channel, and a closed channel stays closed. */
  lemma NoPanicOnClosedChannel(s0: State, es: seq<Event>, e: Event)
    requires Init(s0) && Exec(s0, es).Some? && Enabled(Exec(s0, es).value, e)
    ensures var s := Exec(s0, es).value;
            && (e.Push? || e.FlushPush? || e.Close? ==> !s.closed)
            && (s.closed ==> Next(s, e).closed && Next(s, e).pushed == s.pushed)
  {
    InvRun(s0, es);
    var s := Exec(s0, es).value;
    if e.Finish? {
      DeliverFrame(s, s.workers[e.w].job, e.copies);
    }
  }

  /** The ids being sent right now. */
  function InFlight(ws: seq<Worker>): set<nat> {
    set w | 0 <= w < |ws| && ws[w].Sending? :: ws[w].job.id
  }

  lemma {:induction false} InFlightBound(ws: seq<Worker>)
    ensures |InFlight(ws)| <= |ws|
  {
    if ws != [] {
      var n := |ws| - 1;
      InFlightBound(ws[..n]);
      var extra: set<nat> := if ws[n].Sending? then {ws[n].job.id} else {};
      assert InFlight(ws) == InFlight(ws[..n]) + extra;
    }
  }

  function Ids(n: nat): set<nat> {
    if n == 0 then {} else Ids(n - 1) + {n - 1}
  }

  lemma {:induction false} IdsSize(n: nat)
    ensures |Ids(n)| == n
    ensures forall i: nat :: i in Ids(n) <==> i < n
  {
    if n > 0 {
      IdsSize(n - 1);
    }
  }

  /** Backpressure: at most `limit` batches queued, at most `limit` SendBatch calls in flight,
      hence at most twice that many pushed batches are unfinished. */
  lemma UnfinishedIsBounded(s0: State, es: seq<Event>)
    requires Init(s0) && Exec(s0, es).Some?
    ensures var s := Exec(s0, es).value;
            && |s.queue| <= s.limit
            && |InFlight(s.workers)| <= s.limit
            && |Ids(|s.pushed|) - s.finished| <= 2 * s.limit
  {
    InvRun(s0, es);
    var s := Exec(s0, es).value;
    InFlightBound(s.workers);
    var all, sent, flying := Ids(|s.pushed|), Ids(|s.taken|), InFlight(s.workers);
    IdsSize(|s.pushed|);
    IdsSize(|s.taken|);
    forall i | i in all - s.finished ensures i in (all - sent) + flying {
      if i < |s.taken| {
        var w :| SendingId(s, w, i);
        assert s.workers[w].job.id in flying;
      }
    }
    SubsetSize(sent, all);
    SubsetSize(all - s.finished, (all - sent) + flying);
  }

  lemma SubsetSize<T>(a: set<T>, b: set<T>)
    requires a <= b
    ensures |a| <= |b|
  {
    assert b == a + (b - a);
  }

  // ---- liveness ----

  function Weight(w: Worker): nat {
    match w
    case Ready => 1
    case Sending(_) => 2
    case Exited => 0
  }

  function Load(ws: seq<Worker>): nat {
    if ws == [] then 0 else Load(ws[..|ws| - 1]) + Weight(ws[|ws| - 1])
  }

  lemma {:induction false} LoadUpdate(ws: seq<Worker>, i: nat, w: Worker)
    requires i < |ws|
    ensures Load(ws[i := w]) + Weight(ws[i]) == Load(ws) + Weight(w)
  {
    var n := |ws| - 1;
    if i == n {
      assert ws[i := w][..n] == ws[..n];
    } else {
      LoadUpdate(ws[..n], i, w);
      assert ws[i := w][..n] == ws[..n][i := w];
    }
  }

  function ReporterWork(r: Reporter): nat {
    match r
    case Flushing => 6
    case FlushOffering(_, _) => 5
    case Returning => 2
    case Closed => 1
    case _ => 0
  }

  /** What is left to do once a ctx.Done branch has been taken. */
  function Remaining(s: State): nat {
    ReporterWork(s.reporter) + 2 * |s.queue| + Load(s.workers)
  }

  /** The reporter and the workers are all done. */
  predicate Drained(s: State) {
    && s.reporter.Gone? && s.closed && s.queue == []
    && forall w :: 0 <= w < |s.workers| ==> s.workers[w].Exited?
  }

  /** After the Done branch, every reporter or worker step strictly decreases the measure, and
      no other step (collectors, the cancel) changes it. */
  lemma ShutdownStepsDecrease(s: State, e: Event)
    requires Inv(s) && PastDone(s.reporter) && Enabled(s, e)
    ensures PastDone(Next(s, e).reporter)
    ensures if ReporterEvent(e) || WorkerEvent(e) then Remaining(Next(s, e)) < Remaining(s)
            else Remaining(Next(s, e)) == Remaining(s)
  {
    if WorkerEvent(e) {
      WorkerStepDecreases(s, e);
    } else {
      assert Next(s, e).workers == s.workers;
    }
  }

  lemma WorkerStepDecreases(s: State, e: Event)
    requires Enabled(s, e) && WorkerEvent(e)
    ensures Next(s, e).reporter == s.reporter && Remaining(Next(s, e)) < Remaining(s)
  {
    match e
    case Take(w) => LoadUpdate(s.workers, w, Sending(s.queue[0]));
    case Finish(w, copies) =>
      LoadUpdate(s.workers, w, Ready);
      DeliverFrame(s, s.workers[w].job, copies);
    case Exit(w) => LoadUpdate(s.workers, w, Exited);
  }

  /** Some worker can move whenever the channel is full. */
  lemma FullChannelDrains(s: State)
    requires Inv(s) && |s.queue| == s.limit
    ensures Enabled(s, Take(0)) || Enabled(s, Finish(0, 1))
  {
    assert WorkerOk(s, 0);
  }

  /** After the Done branch some reporter or worker step is enabled until everything is
      drained: in particular neither flush push can block forever. */
  lemma ShutdownProgress(s: State) returns (e: Event)
    requires Inv(s) && PastDone(s.reporter) && !Drained(s)
    ensures Enabled(s, e) && (ReporterEvent(e) || WorkerEvent(e))
  {
    match s.reporter
    case Flushing =>
      var ms := ReportExists(s.metrics);
      e := FlushSnap(ms);
    case FlushOffering(_, _) =>
      if |s.queue| < s.limit {
        e := FlushPush;
      } else {
        FullChannelDrains(s);
        e := if s.workers[0].Ready? then Take(0) else Finish(0, 1);
      }
    case Returning => e := Close;
    case Closed => e := ReporterExit;
    case Gone =>
      assert WorkerOk(s, 0);
      var w: nat :| w < |s.workers| && !s.workers[w].Exited?;
      e := if s.workers[w].Sending? then Finish(w, 1) else if s.queue != [] then Take(w) else Exit(w);
    case _ =>
  }

  function Work(es: seq<Event>): nat {
    if es == [] then 0
    else Work(es[..|es| - 1]) + (if ReporterEvent(es[|es| - 1]) || WorkerEvent(es[|es| - 1]) then 1 else 0)
  }

  lemma {:induction false} WorkIsBounded(s: State, es: seq<Event>)
    requires Inv(s) && PastDone(s.reporter) && Exec(s, es).Some?
    ensures Inv(Exec(s, es).value) && PastDone(Exec(s, es).value.reporter)
    ensures Work(es) + Remaining(Exec(s, es).value) <= Remaining(s)
  {
    if es != [] {
      var front := es[..|es| - 1];
      WorkIsBounded(s, front);
      InvNext(Exec(s, front).value, es[|es| - 1]);
      ShutdownStepsDecrease(Exec(s, front).value, es[|es| - 1]);
    }
  }

  /** Graceful shutdown: after the Done branch the reporter and the workers take at most
      `Remaining` more steps in any interleaving, and wherever such a run stops short of the
      drained state one of them can still move. */
  lemma ShutdownTerminates(s0: State, before: seq<Event>, after: seq<Event>)
    requires Init(s0) && Exec(s0, before).Some? && PastDone(Exec(s0, before).value.reporter)
    requires Exec(Exec(s0, before).value, after).Some?
    ensures var s, t := Exec(s0, before).value, Exec(Exec(s0, before).value, after).value;
            && Work(after) <= Remaining(s)
            && (Drained(t) || exists e :: Enabled(t, e) && (ReporterEvent(e) || WorkerEvent(e)))
  {
    InvRun(s0, before);
    var s := Exec(s0, before).value;
    WorkIsBounded(s, after);
    var t := Exec(s, after).value;
    if !Drained(t) {
      var e := ShutdownProgress(t);
    }
  }

  /** No reachable state before completion is stuck, even without a cancel. */
  lemma NeverStuck(s0: State, es: seq<Event>) returns (e: Event)
    requires Init(s0) && Exec(s0, es).Some? && !Complete(Exec(s0, es).value)
    ensures Enabled(Exec(s0, es).value, e) && !e.Cancel?
  {
    InvRun(s0, es);
    var s := Exec(s0, es).value;
    if PastDone(s.reporter) && !Drained(s) {
      e := ShutdownProgress(s);
    } else if PastDone(s.reporter) {
      e := if s.extraLoop.Looping? then StopExtra else if s.runtimeLoop.Looping? then StopCollect else Collect(map[]);
    } else {
      match s.reporter
      case Selecting => e := Tick;
      case Ticked =>
        var ms := ReportExists(s.metrics);
        e := Snap(ms);
      case Offering(_, _) =>
        if |s.queue| < s.limit {
          e := Push;
        } else {
          FullChannelDrains(s);
          e := if s.workers[0].Ready? then Take(0) else Finish(0, 1);
        }
      case _ =>
    }
  }
}
