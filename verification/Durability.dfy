/** Concurrent savers: any number of goroutines update the memory store and save it
    (filestorage.go `Save` under `s.mu`, the snapshot inside it under the memory lock;
    metrics.go updates first and saves in the callback). One event is one atomic step
    of one goroutine, so every interleaving is an event sequence. */
module Durability {
  import opened Model
  import opened Storage
  import opened MemoryBackend
  import opened FileBackend

  /** Where a goroutine is. `need` is the history position its own update reached
      (zero for the periodic saver, which has none). */
  datatype Phase =
    | Idle
    | Waiting(need: nat)
    | Holding(need: nat)
    | Snapped(need: nat, at: nat, ms: seq<Metrics>)
    | Written(need: nat)

  /** The file as last written, with the history position its snapshot was taken at. */
  datatype Version = Version(at: nat, ms: seq<Metrics>)

  /** `found` is what the file held when the process started, None when there was none; `start`
      is the store after start-up, with that file loaded into it or not. */
  datatype State = State(
    found: Option<seq<Metrics>>,
    start: Store,
    history: seq<seq<Metrics>>,
    phases: map<nat, Phase>,
    lock: Option<nat>,
    saved: Option<Version>,
    acked: set<nat>)

  datatype Event =
    | Update(p: nat, ms: seq<Metrics>, sync: bool)
    | StartSave(p: nat)
    | Acquire(p: nat)
    | Snapshot(p: nat, ms: seq<Metrics>)
    | Write(p: nat)
    | FailSave(p: nat)
    | Release(p: nat)

  function PhaseOf(s: State, p: nat): Phase {
    if p in s.phases then s.phases[p] else Idle
  }

  function To(s: State, p: nat, ph: Phase): State {
    s.(phases := s.phases[p := ph])
  }

  function MemAfter(start: Store, updates: seq<seq<Metrics>>): Store {
    if updates == [] then start
    else ApplyAll(MemAfter(start, updates[..|updates| - 1]), updates[|updates| - 1])
  }

  function Mem(s: State): Store {
    MemAfter(s.start, s.history)
  }

  ghost predicate Enabled(s: State, e: Event) {
    match e
    case Update(p, _, _) => PhaseOf(s, p).Idle?
    case StartSave(p) => PhaseOf(s, p).Idle?
    case Acquire(p) => PhaseOf(s, p).Waiting? && s.lock.None?
    case Snapshot(p, ms) => PhaseOf(s, p).Holding? && Enumerates(ms, Mem(s))
    case Write(p) => PhaseOf(s, p).Snapped? && AllEncodable(PhaseOf(s, p).ms)
    case FailSave(p) => PhaseOf(s, p).Snapped?
    case Release(p) => PhaseOf(s, p).Written?
  }

  ghost function Next(s: State, e: Event): State
    requires Enabled(s, e)
  {
    match e
    case Update(p, ms, sync) =>
      var t := s.(history := s.history + [ms]);
      if sync then To(t, p, Waiting(|t.history|)) else t
    case StartSave(p) => To(s, p, Waiting(0))
    case Acquire(p) => To(s, p, Holding(PhaseOf(s, p).need)).(lock := Some(p))
    case Snapshot(p, ms) => To(s, p, Snapped(PhaseOf(s, p).need, |s.history|, ms))
    case Write(p) =>
      var ph := PhaseOf(s, p);
      To(s, p, Written(ph.need)).(saved := Some(Version(ph.at, ph.ms)))
    case FailSave(p) => To(s, p, Idle).(lock := None)
    case Release(p) => To(s, p, Idle).(lock := None, acked := s.acked + {PhaseOf(s, p).need})
  }

  /** The state after a feasible event sequence, None when some event was not enabled. */
  ghost function Exec(s: State, es: seq<Event>): Option<State> {
    if es == [] then Some(s)
    else match Exec(s, es[..|es| - 1])
      case None => None
      case Some(m) => var e := es[|es| - 1]; if Enabled(m, e) then Some(Next(m, e)) else None
  }

  ghost predicate Init(s: State) {
    s.history == [] && s.phases == map[] && s.lock.None? && s.saved.None? && s.acked == {}
  }

  predicate HoldsLock(ph: Phase) {
    ph.Holding? || ph.Snapped? || ph.Written?
  }

  ghost predicate VersionOk(s: State, v: Version) {
    v.at <= |s.history| && Enumerates(v.ms, MemAfter(s.start, s.history[..v.at]))
  }

  function SavedAt(s: State): int {
    if s.saved.Some? then s.saved.value.at else -1
  }

  ghost predicate PhaseOk(s: State, p: nat) {
    var ph := PhaseOf(s, p);
    && (HoldsLock(ph) <==> s.lock == Some(p))
    && (ph.Waiting? || ph.Holding? ==> ph.need <= |s.history|)
    && (ph.Snapped? ==> VersionOk(s, Version(ph.at, ph.ms)) && ph.need <= ph.at && SavedAt(s) <= ph.at)
    && (ph.Written? ==> ph.need <= SavedAt(s))
  }

  ghost predicate Inv(s: State) {
    && (forall p: nat :: PhaseOk(s, p))
    && (s.saved.Some? ==> VersionOk(s, s.saved.value))
    && (forall a :: a in s.acked ==> a <= SavedAt(s))
  }

  /** What a process started now would load. */
  function OnDisk(s: State): Option<seq<Metrics>> {
    if s.saved.Some? then Some(s.saved.value.ms) else s.found
  }

  /** The server restored its state from the file at start-up. */
  predicate Restored(s: State) {
    s.found.Some? && s.start == ApplyAll(EMPTY, s.found.value)
  }

  lemma InvInit(s: State)
    requires Init(s)
    ensures Inv(s)
  {
  }

  /** Every step of every goroutine keeps the lock discipline and never moves the file back. */
  lemma InvNext(s: State, e: Event)
    requires Inv(s) && Enabled(s, e)
    ensures Inv(Next(s, e))
    ensures SavedAt(s) <= SavedAt(Next(s, e))
  {
    var t := Next(s, e);
    assert PhaseOk(s, e.p);
    assert s.start == t.start;
    assert s.history[..|s.history|] == s.history;
    forall k | 0 <= k <= |s.history| ensures t.history[..k] == s.history[..k] {
    }
    forall p: nat ensures PhaseOk(t, p) {
      assert PhaseOk(s, p);
    }
    if t.saved.Some? {
      assert VersionOk(t, t.saved.value);
    }
  }

  lemma {:induction false} InvRun(s: State, es: seq<Event>)
    requires Inv(s) && Exec(s, es).Some?
    ensures Inv(Exec(s, es).value)
    ensures SavedAt(s) <= SavedAt(Exec(s, es).value)
    ensures s.acked <= Exec(s, es).value.acked
    ensures Exec(s, es).value.start == s.start && Exec(s, es).value.found == s.found
    ensures s.history <= Exec(s, es).value.history
  {
    if es != [] {
      InvRun(s, es[..|es| - 1]);
      InvNext(Exec(s, es[..|es| - 1]).value, es[|es| - 1]);
    }
  }

  /** The file is the store as of the history position of the last save. */
  ghost predicate FileIsHistory(s: State) {
    && OnDisk(s).Some? && SavedAt(s) <= |s.history|
    && ApplyAll(EMPTY, OnDisk(s).value) == MemAfter(s.start, s.history[..if s.saved.Some? then s.saved.value.at else 0])
  }

  lemma FileOfState(s: State)
    requires Inv(s)
    ensures s.saved.Some? || Restored(s) ==> FileIsHistory(s)
  {
    if s.saved.Some? {
      SnapshotRestores(s.saved.value.ms, MemAfter(s.start, s.history[..s.saved.value.at]));
    }
  }

  /** What a next process would load: the file as it was found until the first save, and from
      then on (from the start, when the server had restored it) the memory store as of one
      history position, which never decreases while the run continues. */
  lemma FileNeverGoesBack(s0: State, before: seq<Event>, after: seq<Event>)
    requires Init(s0) && Exec(s0, before).Some? && Exec(Exec(s0, before).value, after).Some?
    ensures var s, t := Exec(s0, before).value, Exec(Exec(s0, before).value, after).value;
            && SavedAt(s) <= SavedAt(t)
            && s.history <= t.history
            && (s.saved.None? ==> OnDisk(s) == s0.found)
            && (s.saved.Some? || Restored(s0) ==> FileIsHistory(s) && FileIsHistory(t))
  {
    InvInit(s0);
    InvRun(s0, before);
    var s := Exec(s0, before).value;
    InvRun(s, after);
    FileOfState(s);
    FileOfState(Exec(s, after).value);
  }

  // ---- one synchronous update, from its call to its return ----

  /** Neither an end of `p`'s save nor its failure. */
  predicate StillSaving(p: nat, es: seq<Event>) {
    forall i :: 0 <= i < |es| ==> es[i] != Release(p) && es[i] != FailSave(p)
  }

  function Need(ph: Phase): nat {
    if ph.Idle? then 0 else ph.need
  }

  lemma NeedNext(s: State, e: Event, p: nat)
    requires Enabled(s, e) && !PhaseOf(s, p).Idle? && e != Release(p) && e != FailSave(p)
    ensures !PhaseOf(Next(s, e), p).Idle? && Need(PhaseOf(Next(s, e), p)) == Need(PhaseOf(s, p))
  {
  }

  /** Until then the goroutine carries the position of its own update. */
  lemma {:induction false} NeedIsKept(s: State, es: seq<Event>, p: nat)
    requires Exec(s, es).Some? && !PhaseOf(s, p).Idle? && StillSaving(p, es)
    ensures !PhaseOf(Exec(s, es).value, p).Idle? && Need(PhaseOf(Exec(s, es).value, p)) == Need(PhaseOf(s, p))
  {
    if es != [] {
      NeedIsKept(s, es[..|es| - 1], p);
      NeedNext(Exec(s, es[..|es| - 1]).value, es[|es| - 1], p);
    }
  }

  /** From the update up to the release: the save has covered it. */
  lemma SaveCoversUpdate(s: State, p: nat, ms: seq<Metrics>, during: seq<Event>)
    requires Inv(s) && Enabled(s, Update(p, ms, true))
    requires Exec(Next(s, Update(p, ms, true)), during).Some? && StillSaving(p, during)
    requires Enabled(Exec(Next(s, Update(p, ms, true)), during).value, Release(p))
    ensures var t := Next(Exec(Next(s, Update(p, ms, true)), during).value, Release(p));
            && Inv(t) && t.start == s.start && |s.history| + 1 in t.acked
            && |s.history| + 1 <= SavedAt(t)
            && s.history + [ms] <= t.history
  {
    var u := Next(s, Update(p, ms, true));
    InvNext(s, Update(p, ms, true));
    assert PhaseOf(u, p) == Waiting(|s.history| + 1);
    InvRun(u, during);
    NeedIsKept(u, during, p);
    var v := Exec(u, during).value;
    assert PhaseOk(v, p);
    InvNext(v, Release(p));
  }

  /** Synchronous mode, over a whole run: a goroutine applies an update and later releases the
      save lock after writing, having neither failed nor finished a save in between; so its
      call returns with the save done. Then after any further run of all goroutines a restart
      loads the store as of a history position that includes that update. */
  lemma AcknowledgedIsDurable(s0: State, before: seq<Event>, p: nat, ms: seq<Metrics>, during: seq<Event>, after: seq<Event>)
    requires Init(s0) && Exec(s0, before).Some?
    requires var s := Exec(s0, before).value;
             && Enabled(s, Update(p, ms, true))
             && Exec(Next(s, Update(p, ms, true)), during).Some? && StillSaving(p, during)
             && var v := Exec(Next(s, Update(p, ms, true)), during).value;
                Enabled(v, Release(p)) && Exec(Next(v, Release(p)), after).Some?
    ensures var s := Exec(s0, before).value;
            var t := Exec(Next(Exec(Next(s, Update(p, ms, true)), during).value, Release(p)), after).value;
            var a := |s.history| + 1;
            && t.saved.Some?
            && a <= t.saved.value.at <= |t.history|
            && t.history[a - 1] == ms
            && a in t.acked
            && ApplyAll(EMPTY, t.saved.value.ms) == MemAfter(s0.start, t.history[..t.saved.value.at])
  {
    InvInit(s0);
    InvRun(s0, before);
    var s := Exec(s0, before).value;
    SaveCoversUpdate(s, p, ms, during);
    var r := Next(Exec(Next(s, Update(p, ms, true)), during).value, Release(p));
    InvRun(r, after);
    FileOfState(Exec(r, after).value);
  }

  /** The position a synchronous update must reach is recorded when it is applied, and only a
      release after a successful write acknowledges it. */
  lemma AcknowledgementIsEarned(s: State, e: Event, a: nat)
    requires Inv(s) && Enabled(s, e)
    requires a in Next(s, e).acked && a !in s.acked
    ensures e.Release? && PhaseOf(s, e.p) == Written(a) && a <= SavedAt(s)
  {
    assert PhaseOk(s, e.p);
  }

  // ---- memory over a run ----

  /** Everything the updates of a run ask for, synchronous or not, in order. */
  function Updates(es: seq<Event>): seq<Metrics> {
    if es == [] then []
    else Updates(es[..|es| - 1]) + (if es[|es| - 1].Update? then es[|es| - 1].ms else [])
  }

  lemma MemSnoc(start: Store, history: seq<seq<Metrics>>, ms: seq<Metrics>)
    ensures MemAfter(start, history + [ms]) == ApplyAll(MemAfter(start, history), ms)
  {
    assert (history + [ms])[..|history|] == history;
  }

  /** In every run memory holds the start-up store with every update of the run applied, however
      the saves interleave and whether they succeed. */
  lemma {:induction false} MemoryIsUpdates(s0: State, es: seq<Event>)
    requires Init(s0) && Exec(s0, es).Some?
    ensures Mem(Exec(s0, es).value) == ApplyAll(s0.start, Updates(es))
    ensures Exec(s0, es).value.start == s0.start
  {
    if es != [] {
      var front, e := es[..|es| - 1], es[|es| - 1];
      MemoryIsUpdates(s0, front);
      MemoryNext(Exec(s0, front).value, e);
      if e.Update? {
        ApplyAllConcat(s0.start, Updates(front), e.ms);
      } else {
        assert Updates(es) == Updates(front);
      }
    }
  }

  /** Memory changes with the updates only, and at once. */
  lemma MemoryNext(s: State, e: Event)
    requires Enabled(s, e)
    ensures Next(s, e).start == s.start
    ensures Mem(Next(s, e)) == if e.Update? then ApplyAll(Mem(s), e.ms) else Mem(s)
  {
    if e.Update? {
      MemSnoc(s.start, s.history, e.ms);
    }
  }

  /** No goroutine has to wait to update memory, and a save never has to wait for ever: while
      any goroutine is saving, one of them can take its next step. */
  lemma SaversNeverDeadlock(s0: State, es: seq<Event>, p: nat)
    requires Init(s0) && Exec(s0, es).Some?
    ensures var s := Exec(s0, es).value;
            && (PhaseOf(s, p).Idle? ==> forall ms, sync :: Enabled(s, Update(p, ms, sync)))
            && (!PhaseOf(s, p).Idle? ==> exists q, ms :: SaveStep(s, q, ms))
  {
    InvInit(s0);
    InvRun(s0, es);
    var s := Exec(s0, es).value;
    if !PhaseOf(s, p).Idle? {
      var q := if s.lock.Some? then s.lock.value else p;
      assert PhaseOk(s, q);
      var ms := EnumerationExists(Mem(s));
      assert SaveStep(s, q, ms);
    }
  }

  /** The next step of a saving goroutine is enabled; its snapshot, if that is the step, is `ms`. */
  ghost predicate SaveStep(s: State, q: nat, ms: seq<Metrics>) {
    Enabled(s, Acquire(q)) || Enabled(s, Snapshot(q, ms)) || Enabled(s, FailSave(q)) || Enabled(s, Release(q))
  }

  // ---- the final save ----

  lemma ExecSnoc(s: State, es: seq<Event>, e: Event)
    ensures Exec(s, es + [e]) ==
            if Exec(s, es).Some? && Enabled(Exec(s, es).value, e) then Some(Next(Exec(s, es).value, e)) else None
  {
    assert (es + [e])[..|es|] == es;
  }

  function TakeBy(p: nat, ms: seq<Metrics>): seq<Event> {
    [] + [StartSave(p)] + [Acquire(p)] + [Snapshot(p, ms)]
  }

  function SaveBy(p: nat, ms: seq<Metrics>): seq<Event> {
    TakeBy(p, ms) + [Write(p)] + [Release(p)]
  }

  lemma TakeSucceeds(s: State, p: nat, ms: seq<Metrics>)
    requires s.lock.None? && PhaseOf(s, p).Idle? && Enumerates(ms, Mem(s))
    ensures Exec(s, TakeBy(p, ms)).Some?
    ensures var t := Exec(s, TakeBy(p, ms)).value;
            PhaseOf(t, p) == Snapped(0, |s.history|, ms) && t.start == s.start && t.history == s.history
  {
    ExecSnoc(s, [], StartSave(p));
    var s1 := Next(s, StartSave(p));
    assert PhaseOf(s1, p) == Waiting(0) && s1.lock.None?;
    ExecSnoc(s, [] + [StartSave(p)], Acquire(p));
    var s2 := Next(s1, Acquire(p));
    assert PhaseOf(s2, p) == Holding(0) && Mem(s2) == Mem(s);
    ExecSnoc(s, [] + [StartSave(p)] + [Acquire(p)], Snapshot(p, ms));
  }

  /** A save by a goroutine nobody holds up, with no update in between, succeeds for every
      snapshot order iff the gauges are finite, and then saves everything in memory. */
  lemma QuietSave(s: State, p: nat, ms: seq<Metrics>)
    requires s.lock.None? && PhaseOf(s, p).Idle? && Enumerates(ms, Mem(s))
    ensures Exec(s, SaveBy(p, ms)).Some? <==> AllFinite(Mem(s))
    ensures Exec(s, SaveBy(p, ms)).Some? ==>
              && Exec(s, SaveBy(p, ms)).value.saved.Some?
              && ApplyAll(EMPTY, Exec(s, SaveBy(p, ms)).value.saved.value.ms) == Mem(s)
  {
    EncodableIffFinite(ms, Mem(s));
    TakeSucceeds(s, p, ms);
    ExecSnoc(s, TakeBy(p, ms), Write(p));
    ExecSnoc(s, TakeBy(p, ms) + [Write(p)], Release(p));
    SnapshotRestores(ms, Mem(s));
  }

  /** The final save of a graceful shutdown, after any run of updates and saves that has gone
      quiet: it succeeds iff the gauges are finite, and then a restart loads the start-up store
      with every update of the run, synchronous or not. */
  lemma FinalSaveIsComplete(s0: State, es: seq<Event>, p: nat, ms: seq<Metrics>)
    requires Init(s0) && Exec(s0, es).Some?
    requires var s := Exec(s0, es).value; s.lock.None? && PhaseOf(s, p).Idle? && Enumerates(ms, Mem(s))
    ensures var s, all := Exec(s0, es).value, ApplyAll(s0.start, Updates(es));
            && (Exec(s, SaveBy(p, ms)).Some? <==> AllFinite(all))
            && (Exec(s, SaveBy(p, ms)).Some? ==>
                  && OnDisk(Exec(s, SaveBy(p, ms)).value).Some?
                  && ApplyAll(EMPTY, OnDisk(Exec(s, SaveBy(p, ms)).value).value) == all)
  {
    MemoryIsUpdates(s0, es);
    QuietSave(Exec(s0, es).value, p, ms);
  }
}
