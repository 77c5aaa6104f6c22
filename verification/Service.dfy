/** internal/service/metrics.go: validation, update, then notification. */
module Service {
  import opened Model
  import opened Storage
  import opened MemoryBackend

  datatype Error = Nil | InvalidValue | UnknownType | ValueRequired | DeltaRequired

  /** A service call. The text form carries what strconv makes of its value. */
  datatype Call =
    | Text(mtype: string, name: string, asFloat: Option<Float64>, asInt: Option<Int64>)
    | Single(m: Metrics)
    | Batch(ms: seq<Metrics>)

  function Outcome(c: Call): Error {
    match c
    case Text(mtype, _, f, d) =>
      if mtype == GAUGE then if f.Some? then Nil else InvalidValue
      else if mtype == COUNTER then if d.Some? then Nil else InvalidValue
      else UnknownType
    case Single(m) =>
      if m.mtype == GAUGE then if m.value.Some? then Nil else ValueRequired
      else if m.mtype == COUNTER then if m.delta.Some? then Nil else DeltaRequired
      else UnknownType
    case Batch(_) => Nil
  }

  /** The updates a call asks for; a batch may contain entries storage ignores. */
  function Entries(c: Call): seq<Metrics> {
    match c
    case Text(mtype, name, f, d) =>
      if mtype == GAUGE && f.Some? then [GaugeMetric(name, f.value)]
      else if mtype == COUNTER && d.Some? then [CounterMetric(name, d.value)]
      else []
    case Single(m) => [m]
    case Batch(ms) => ms
  }

  predicate Notifies(c: Call) {
    Outcome(c) == Nil && (c.Batch? ==> c.ms != [])
  }

  /** What one call does to the store. */
  function Effect(s: Store, c: Call): Store {
    if Outcome(c) == Nil then ApplyAll(s, Entries(c)) else s
  }

  function RunCalls(s: Store, calls: seq<Call>): Store {
    if calls == [] then s else Effect(RunCalls(s, calls[..|calls| - 1]), calls[|calls| - 1])
  }

  /** The update history of a run, with every cut into calls forgotten. */
  function History(calls: seq<Call>): seq<Metrics> {
    if calls == [] then [] else History(calls[..|calls| - 1]) + Entries(calls[|calls| - 1])
  }

  lemma ApplyAllOne(s: Store, m: Metrics)
    ensures ApplyAll(s, [m]) == Apply(s, m)
  {
    assert [m] == [] + [m];
    ApplyAllSnoc(s, [], m);
  }

  lemma EffectIsEntries(s: Store, c: Call)
    ensures Effect(s, c) == ApplyAll(s, Entries(c))
  {
    if c.Single? {
      ApplyAllOne(s, c.m);
    }
  }

  /** The type a single update names. */
  function TypeOf(c: Call): string
    requires !c.Batch?
  {
    match c
    case Text(mtype, _, _, _) => mtype
    case Single(m) => m.mtype
  }

  /** Storage would apply the entry. */
  predicate ValidEntry(m: Metrics) {
    IsGauge(m) || IsCounter(m)
  }

  /** When a call is refused, and with which error: a batch never; a single update unless it is a
      gauge with a value or a counter with a delta. An unknown type is reported as such, a known
      one by what is missing. */
  lemma RefusedIff(c: Call)
    ensures Outcome(c) == Nil <==> c.Batch? || exists m :: m in Entries(c) && ValidEntry(m)
    ensures !c.Batch? ==> (Outcome(c) == UnknownType <==> TypeOf(c) != "gauge" && TypeOf(c) != "counter")
    ensures c.Text? ==>
              (Outcome(c) == InvalidValue <==> (TypeOf(c) == "gauge" && c.asFloat.None?) || (TypeOf(c) == "counter" && c.asInt.None?))
    ensures c.Single? ==> (Outcome(c) == ValueRequired <==> TypeOf(c) == "gauge" && c.m.value.None?)
    ensures c.Single? ==> (Outcome(c) == DeltaRequired <==> TypeOf(c) == "counter" && c.m.delta.None?)
  {
    assert GAUGE != COUNTER;
    match c
    case Text(mtype, name, f, d) =>
      if mtype == GAUGE && f.Some? {
        assert ValidEntry(Entries(c)[0]);
      } else if mtype == COUNTER && d.Some? {
        assert ValidEntry(Entries(c)[0]);
      }
    case Single(m) =>
      assert Entries(c) == [m] && m in Entries(c);
    case Batch(_) =>
  }

  /** What an accepted text update stores, and under which name. */
  lemma TextMeaning(s: Store, name: string, v: Float64, d: Int64, f: Option<Float64>, i: Option<Int64>)
    ensures Effect(s, Text("gauge", name, Some(v), i)) == s.(gauges := s.gauges[name := v])
    ensures Effect(s, Text("counter", name, f, Some(d))) == s.(counters := s.counters[name := Wrap(Count(s, name) + d)])
  {
    ApplyAllOne(s, GaugeMetric(name, v));
    ApplyAllOne(s, CounterMetric(name, d));
    assert GAUGE != COUNTER;
  }

  /** A refused call changes nothing, an accepted single update is applied as it stands and a batch
      entry by entry; the callback runs for the accepted calls, but not for an empty batch. */
  lemma CallMeaning(s: Store, c: Call)
    ensures Outcome(c) != Nil ==> Effect(s, c) == s
    ensures c.Single? ==> Effect(s, c) == Apply(s, c.m)
    ensures c.Batch? ==> Effect(s, c) == ApplyAll(s, c.ms)
    ensures Notifies(c) <==> (c.Batch? && c.ms != []) || (!c.Batch? && exists m :: m in Entries(c) && ValidEntry(m))
  {
    RefusedIff(c);
    if c.Single? {
      ApplyAllOne(s, c.m);
    }
  }

  /** However a history is cut into text, single and batch calls, and whichever of them are
      refused, the store is the history applied entry by entry. */
  lemma {:induction false} CutsDoNotMatter(s: Store, calls: seq<Call>)
    ensures RunCalls(s, calls) == ApplyAll(s, History(calls))
  {
    if calls != [] {
      var front, c := calls[..|calls| - 1], calls[|calls| - 1];
      CutsDoNotMatter(s, front);
      EffectIsEntries(RunCalls(s, front), c);
      ApplyAllConcat(s, History(front), Entries(c));
    }
  }

  /** Every name after every run of calls: the gauge is its last valid write, the counter the
      wrapped sum of its valid deltas, and a key exists iff some valid update named it. */
  lemma RunMeaning(calls: seq<Call>, name: string)
    ensures var r, h := RunCalls(EMPTY, calls), History(calls);
            && (name in r.gauges <==> GaugeNamed(h, name))
            && (name in r.counters <==> CounterNamed(h, name))
            && (forall i :: LastWrite(h, name, i) ==> name in r.gauges && r.gauges[name] == h[i].value.value)
            && Count(r, name) == Wrap(DeltaSum(h, name))
  {
    CutsDoNotMatter(EMPTY, calls);
    GaugeHistory(EMPTY, History(calls), name);
    CounterHistory(EMPTY, History(calls), name);
  }

  /** What a reader gets after any run of calls: a gauge with its last valid write, a counter with
      its wrapped sum, nothing for a name no valid update of that type named or for other types. */
  lemma ReadAfterRun(calls: seq<Call>, name: string, mtype: string)
    ensures var r, h := Lookup(RunCalls(EMPTY, calls), name, mtype), History(calls);
            && (r.Some? <==> (mtype == "gauge" && GaugeNamed(h, name)) || (mtype == "counter" && CounterNamed(h, name)))
            && (r.Some? && mtype == "gauge" ==>
                  exists i :: LastWrite(h, name, i) && r == Some(Metrics(name, "gauge", None, h[i].value, "")))
            && (r.Some? && mtype == "counter" ==>
                  r == Some(Metrics(name, "counter", Some(Wrap(DeltaSum(h, name))), None, "")))
  {
    RunMeaning(calls, name);
    assert GAUGE != COUNTER;
    if mtype == GAUGE && GaugeNamed(History(calls), name) {
      var i := HasLastWrite(History(calls), name);
    }
  }

  class MetricService {
    const storage: MemStorage
    var onUpdate: bool      // a callback is registered
    var notified: nat       // how often it has been called

    constructor (storage: MemStorage)
      ensures this.storage == storage && !onUpdate && notified == 0
    {
      this.storage := storage;
      onUpdate, notified := false, 0;
    }

    method SetOnUpdate()
      modifies this
      ensures onUpdate && notified == old(notified)
    {
      onUpdate := true;
    }

    method NotifyUpdate()
      modifies this`notified
      ensures notified == old(notified) + (if onUpdate then 1 else 0)
    {
      if onUpdate {
        notified := notified + 1;
      }
    }

    method UpdateMetric(mtype: string, name: string, asFloat: Option<Float64>, asInt: Option<Int64>) returns (e: Error)
      modifies this`notified, storage
      ensures var c := Text(mtype, name, asFloat, asInt);
              && e == Outcome(c)
              && storage.Contents() == Effect(old(storage.Contents()), c)
              && notified == old(notified) + (if onUpdate && Notifies(c) then 1 else 0)
    {
      if mtype == GAUGE {
        if asFloat.None? { return InvalidValue; }
        ApplyAllOne(storage.Contents(), GaugeMetric(name, asFloat.value));
        storage.UpdateGauge(name, asFloat.value);
      } else if mtype == COUNTER {
        if asInt.None? { return InvalidValue; }
        ApplyAllOne(storage.Contents(), CounterMetric(name, asInt.value));
        storage.UpdateCounter(name, asInt.value);
      } else {
        return UnknownType;
      }
      NotifyUpdate();
      return Nil;
    }

    method UpdateMetricFromModel(m: Metrics) returns (e: Error)
      modifies this`notified, storage
      ensures e == Outcome(Single(m))
      ensures storage.Contents() == Effect(old(storage.Contents()), Single(m))
      ensures notified == old(notified) + (if onUpdate && Notifies(Single(m)) then 1 else 0)
    {
      ApplyAllOne(storage.Contents(), m);
      if m.mtype == GAUGE {
        if m.value.None? { return ValueRequired; }
        storage.UpdateGauge(m.id, m.value.value);
      } else if m.mtype == COUNTER {
        if m.delta.None? { return DeltaRequired; }
        storage.UpdateCounter(m.id, m.delta.value);
      } else {
        return UnknownType;
      }
      NotifyUpdate();
      return Nil;
    }

    method UpdateBatch(ms: seq<Metrics>) returns (e: Error)
      modifies this`notified, storage
      ensures e == Outcome(Batch(ms))
      ensures storage.Contents() == Effect(old(storage.Contents()), Batch(ms))
      ensures notified == old(notified) + (if onUpdate && Notifies(Batch(ms)) then 1 else 0)
    {
      if |ms| == 0 { return Nil; }
      storage.UpdateBatch(ms);
      NotifyUpdate();
      return Nil;
    }
  }
}
