/** The `MemStorage` object. Each method runs under the storage mutex, so each is
    one atomic step on the contents; Go's random map order is the `:|` choice. */
module MemoryBackend {
  import opened Model
  import opened Storage

  /** `m` is the snapshot entry of some metric held in `s`. */
  predicate EntryOf(m: Metrics, s: Store) {
    || (m.id in s.gauges && m == GaugeMetric(m.id, s.gauges[m.id]))
    || (m.id in s.counters && m == CounterMetric(m.id, s.counters[m.id]))
  }

  /** `ms` lists the metrics of `s`, each once, in some order. */
  ghost predicate Enumerates(ms: seq<Metrics>, s: Store) {
    && (forall i :: 0 <= i < |ms| ==> EntryOf(ms[i], s))
    && (forall i, j :: 0 <= i < j < |ms| ==> ms[i] != ms[j])
    && (forall name :: name in s.gauges ==> GaugeMetric(name, s.gauges[name]) in ms)
    && (forall name :: name in s.counters ==> CounterMetric(name, s.counters[name]) in ms)
  }

  lemma {:induction false} NoDeltas(ms: seq<Metrics>, name: string)
    requires !CounterNamed(ms, name)
    ensures DeltaSum(ms, name) == 0
  {
    if ms != [] {
      var front := ms[..|ms| - 1];
      assert !AddsCounter(ms[|ms| - 1], name);
      forall i | 0 <= i < |front| ensures !AddsCounter(front[i], name) {
        assert !AddsCounter(ms[i], name);
      }
      NoDeltas(front, name);
    }
  }

  lemma OneDelta(ms: seq<Metrics>, name: string, k: nat)
    requires k < |ms| && AddsCounter(ms[k], name)
    requires forall i :: 0 <= i < |ms| && i != k ==> !AddsCounter(ms[i], name)
    ensures DeltaSum(ms, name) == ms[k].delta.value
  {
    DeltaSumWithout(ms, k, name);
    NoDeltas(Without(ms, k), name);
  }

  lemma EnumeratedCounter(ms: seq<Metrics>, s: Store, name: string)
    requires Enumerates(ms, s)
    ensures CounterNamed(ms, name) <==> name in s.counters
    ensures DeltaSum(ms, name) == Count(s, name)
  {
    if name in s.counters {
      var m := CounterMetric(name, s.counters[name]);
      var k :| 0 <= k < |ms| && ms[k] == m;
      assert AddsCounter(ms[k], name);
      forall i | 0 <= i < |ms| && i != k ensures !AddsCounter(ms[i], name) {
        assert EntryOf(ms[i], s);
      }
      OneDelta(ms, name, k);
    } else {
      forall i | 0 <= i < |ms| ensures !AddsCounter(ms[i], name) {
        assert EntryOf(ms[i], s);
      }
      NoDeltas(ms, name);
    }
  }

  lemma EnumeratedGauge(ms: seq<Metrics>, s: Store, name: string)
    requires Enumerates(ms, s)
    ensures GaugeNamed(ms, name) <==> name in s.gauges
    ensures forall i :: LastWrite(ms, name, i) ==> name in s.gauges && ms[i].value.value == s.gauges[name]
  {
    forall i | 0 <= i < |ms| && WritesGauge(ms[i], name)
      ensures name in s.gauges && ms[i].value.value == s.gauges[name]
    {
      assert EntryOf(ms[i], s);
    }
    if name in s.gauges {
      var k :| 0 <= k < |ms| && ms[k] == GaugeMetric(name, s.gauges[name]);
      assert WritesGauge(ms[k], name);
    }
  }

  /** Whatever the map order, applying a snapshot to an empty store gives the store back. */
  lemma SnapshotRestores(ms: seq<Metrics>, s: Store)
    requires Enumerates(ms, s)
    ensures ApplyAll(EMPTY, ms) == s
  {
    var r := ApplyAll(EMPTY, ms);
    forall name
      ensures (name in r.gauges <==> name in s.gauges) && (name in r.counters <==> name in s.counters)
      ensures name in r.gauges && name in s.gauges ==> r.gauges[name] == s.gauges[name]
      ensures Count(r, name) == Count(s, name)
    {
      CounterHistory(EMPTY, ms, name);
      EnumeratedCounter(ms, s, name);
      GaugeHistory(EMPTY, ms, name);
      EnumeratedGauge(ms, s, name);
      if GaugeNamed(ms, name) {
        var i := HasLastWrite(ms, name);
      }
    }
    SameStore(r, s);
  }

  /** Every store has a snapshot. */
  lemma {:induction false} EnumerationExists(s: Store) returns (ms: seq<Metrics>)
    ensures Enumerates(ms, s)
    decreases s.gauges.Keys, s.counters.Keys
  {
    if s.gauges != map[] {
      var k :| k in s.gauges;
      var rest := s.(gauges := s.gauges - {k});
      assert rest.gauges.Keys == s.gauges.Keys - {k};
      var front := EnumerationExists(rest);
      ms := front + [GaugeMetric(k, s.gauges[k])];
      OneMoreEntry(front, rest, s, GaugeMetric(k, s.gauges[k]));
    } else if s.counters != map[] {
      var k :| k in s.counters;
      var rest := s.(counters := s.counters - {k});
      assert rest.counters.Keys == s.counters.Keys - {k};
      var front := EnumerationExists(rest);
      ms := front + [CounterMetric(k, s.counters[k])];
      OneMoreEntry(front, rest, s, CounterMetric(k, s.counters[k]));
    } else {
      ms := [];
    }
  }

  lemma OneMoreEntry(front: seq<Metrics>, rest: Store, s: Store, m: Metrics)
    requires Enumerates(front, rest) && EntryOf(m, s) && !EntryOf(m, rest)
    requires forall x :: EntryOf(x, s) <==> EntryOf(x, rest) || x == m
    ensures Enumerates(front + [m], s)
  {
    var ms := front + [m];
    forall i | 0 <= i < |ms| ensures EntryOf(ms[i], s) {
      if i < |front| {
        assert EntryOf(front[i], rest);
      }
    }
    forall i, j | 0 <= i < j < |ms| ensures ms[i] != ms[j] {
      assert EntryOf(front[i], rest);
    }
    forall name | name in s.gauges ensures GaugeMetric(name, s.gauges[name]) in ms {
      var x := GaugeMetric(name, s.gauges[name]);
      assert EntryOf(x, s);
      if x != m {
        assert x in front;
      }
    }
    forall name | name in s.counters ensures CounterMetric(name, s.counters[name]) in ms {
      var x := CounterMetric(name, s.counters[name]);
      assert EntryOf(x, s);
      if x != m {
        assert x in front;
      }
    }
  }

  class MemStorage {
    var gauges: map<string, Float64>
    var counters: map<string, Int64>

    function Contents(): Store
      reads this
    {
      Store(gauges, counters)
    }

    constructor ()
      ensures Contents() == EMPTY
    {
      gauges, counters := map[], map[];
    }

    method UpdateGauge(name: string, value: Float64)
      modifies this
      ensures Contents() == Apply(old(Contents()), GaugeMetric(name, value))
    {
      gauges := gauges[name := value];
    }

    method UpdateCounter(name: string, value: Int64)
      modifies this
      ensures Contents() == Apply(old(Contents()), CounterMetric(name, value))
    {
      var current := if name in counters then counters[name] else 0;
      counters := counters[name := Wrap(current + value)];
    }

    method UpdateBatch(metrics: seq<Metrics>)
      modifies this
      ensures Contents() == ApplyAll(old(Contents()), metrics)
    {
      for i := 0 to |metrics|
        invariant Contents() == ApplyAll(old(Contents()), metrics[..i])
      {
        var m := metrics[i];
        ApplyAllSnoc(old(Contents()), metrics[..i], m);
        assert metrics[..i + 1] == metrics[..i] + [m];
        if m.mtype == GAUGE {
          if m.value.Some? {
            gauges := gauges[m.id := m.value.value];
          }
        } else if m.mtype == COUNTER {
          if m.delta.Some? {
            var current := if m.id in counters then counters[m.id] else 0;
            counters := counters[m.id := Wrap(current + m.delta.value)];
          }
        }
      }
      assert metrics[..|metrics|] == metrics;
    }

    method GetMetric(name: string, mtype: string) returns (r: Option<Metrics>)
      ensures r == Lookup(Contents(), name, mtype)
    {
      if mtype == GAUGE {
        if name in gauges {
          return Some(Metrics(name, mtype, None, Some(gauges[name]), ""));
        }
      } else if mtype == COUNTER {
        if name in counters {
          return Some(Metrics(name, mtype, Some(counters[name]), None, ""));
        }
      }
      return None;
    }

    method Snapshot() returns (metrics: seq<Metrics>)
      ensures Enumerates(metrics, Contents())
    {
      metrics := [];
      var todo := gauges.Keys;
      while todo != {}
        invariant todo <= gauges.Keys
        invariant forall i :: 0 <= i < |metrics| ==>
                                && metrics[i].id in gauges && metrics[i].id !in todo
                                && metrics[i] == GaugeMetric(metrics[i].id, gauges[metrics[i].id])
        invariant forall i, j :: 0 <= i < j < |metrics| ==> metrics[i] != metrics[j]
        invariant forall name :: name in gauges && name !in todo ==> GaugeMetric(name, gauges[name]) in metrics
        decreases todo
      {
        var name :| name in todo;
        metrics := metrics + [GaugeMetric(name, gauges[name])];
        todo := todo - {name};
      }
      todo := counters.Keys;
      while todo != {}
        invariant todo <= counters.Keys
        invariant forall i :: 0 <= i < |metrics| ==> EntryOf(metrics[i], Contents())
        invariant forall i :: 0 <= i < |metrics| ==> metrics[i].mtype == COUNTER ==> metrics[i].id !in todo
        invariant forall i, j :: 0 <= i < j < |metrics| ==> metrics[i] != metrics[j]
        invariant forall name :: name in gauges ==> GaugeMetric(name, gauges[name]) in metrics
        invariant forall name :: name in counters && name !in todo ==> CounterMetric(name, counters[name]) in metrics
        decreases todo
      {
        var name :| name in todo;
        metrics := metrics + [CounterMetric(name, counters[name])];
        todo := todo - {name};
      }
    }
  }
}
