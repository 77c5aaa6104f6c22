/** internal/repository/storage.go: the in-memory backend, and the laws every
    other backend is compared with. */
module Storage {
  import opened Model

  datatype Store = Store(gauges: map<string, Float64>, counters: map<string, Int64>)

  const EMPTY := Store(map[], map[])

  function Count(s: Store, name: string): Int64 {
    if name in s.counters then s.counters[name] else 0
  }

  function AddTo(s: Store, name: string, d: Int64): Store {
    s.(counters := s.counters[name := Wrap(Count(s, name) + d)])
  }

  /** One entry of a batch: entries of an unknown type, or without their value, change nothing. */
  function Apply(s: Store, m: Metrics): Store {
    if m.mtype == GAUGE then
      if m.value.Some? then s.(gauges := s.gauges[m.id := m.value.value]) else s
    else if m.mtype == COUNTER then
      if m.delta.Some? then AddTo(s, m.id, m.delta.value) else s
    else s
  }

  function ApplyAll(s: Store, ms: seq<Metrics>): Store {
    if ms == [] then s else Apply(ApplyAll(s, ms[..|ms| - 1]), ms[|ms| - 1])
  }

  function Lookup(s: Store, name: string, mtype: string): Option<Metrics> {
    if mtype == GAUGE && name in s.gauges then Some(GaugeMetric(name, s.gauges[name]))
    else if mtype == COUNTER && name in s.counters then Some(CounterMetric(name, s.counters[name]))
    else None
  }

  // ---- laws of update histories ----

  lemma {:induction false} ApplyAllConcat(s: Store, a: seq<Metrics>, b: seq<Metrics>)
    ensures ApplyAll(s, a + b) == ApplyAll(ApplyAll(s, a), b)
  {
    if b == [] {
      assert a + b == a;
    } else {
      var front := b[..|b| - 1];
      ApplyAllConcat(s, a, front);
      assert (a + b)[..|a + b| - 1] == a + front;
    }
  }

  lemma ApplyAllSnoc(s: Store, ms: seq<Metrics>, m: Metrics)
    ensures ApplyAll(s, ms + [m]) == Apply(ApplyAll(s, ms), m)
  {
    assert (ms + [m])[..|ms|] == ms;
  }

  /** The exact (unwrapped) sum of the deltas a history adds to one counter. */
  function DeltaSum(ms: seq<Metrics>, name: string): int {
    if ms == [] then 0 else DeltaSum(ms[..|ms| - 1], name) + DeltaOf(ms[|ms| - 1], name)
  }

  function DeltaOf(m: Metrics, name: string): int {
    if AddsCounter(m, name) then m.delta.value else 0
  }

  predicate CounterNamed(ms: seq<Metrics>, name: string) {
    exists i :: 0 <= i < |ms| && AddsCounter(ms[i], name)
  }

  predicate GaugeNamed(ms: seq<Metrics>, name: string) {
    exists i :: 0 <= i < |ms| && WritesGauge(ms[i], name)
  }

  predicate LastWrite(ms: seq<Metrics>, name: string, i: int) {
    && 0 <= i < |ms|
    && WritesGauge(ms[i], name)
    && forall j :: i < j < |ms| ==> !WritesGauge(ms[j], name)
  }

  lemma CountStep(t: Store, m: Metrics, name: string, base: int)
    requires Count(t, name) == Wrap(base)
    ensures Count(Apply(t, m), name) == Wrap(base + DeltaOf(m, name))
  {
    if AddsCounter(m, name) {
      WrapAdd(base, m.delta.value);
    }
  }

  lemma CounterNamedSnoc(ms: seq<Metrics>, name: string)
    requires ms != []
    ensures CounterNamed(ms, name) <==> CounterNamed(ms[..|ms| - 1], name) || AddsCounter(ms[|ms| - 1], name)
  {
    var front := ms[..|ms| - 1];
    if CounterNamed(front, name) {
      var i :| 0 <= i < |front| && AddsCounter(front[i], name);
      assert AddsCounter(ms[i], name);
    }
  }

  /** A counter is the wrapped sum of its valid deltas, and exists iff some valid update named it. */
  lemma {:induction false} CounterHistory(s: Store, ms: seq<Metrics>, name: string)
    ensures name in ApplyAll(s, ms).counters <==> name in s.counters || CounterNamed(ms, name)
    ensures Count(ApplyAll(s, ms), name) == Wrap(Count(s, name) + DeltaSum(ms, name))
  {
    if ms != [] {
      var front := ms[..|ms| - 1];
      CounterHistory(s, front, name);
      CounterNamedSnoc(ms, name);
      CountStep(ApplyAll(s, front), ms[|ms| - 1], name, Count(s, name) + DeltaSum(front, name));
    }
  }

  lemma GaugeNamedSnoc(ms: seq<Metrics>, name: string)
    requires ms != []
    ensures GaugeNamed(ms, name) <==> GaugeNamed(ms[..|ms| - 1], name) || WritesGauge(ms[|ms| - 1], name)
  {
    var front := ms[..|ms| - 1];
    if GaugeNamed(front, name) {
      var i :| 0 <= i < |front| && WritesGauge(front[i], name);
      assert WritesGauge(ms[i], name);
    }
  }

  lemma LastWriteSnoc(ms: seq<Metrics>, name: string, i: int)
    requires LastWrite(ms, name, i)
    ensures WritesGauge(ms[|ms| - 1], name) ==> i == |ms| - 1
    ensures !WritesGauge(ms[|ms| - 1], name) ==> LastWrite(ms[..|ms| - 1], name, i)
  {
    var front := ms[..|ms| - 1];
    if !WritesGauge(ms[|ms| - 1], name) {
      forall j | i < j < |front| ensures !WritesGauge(front[j], name) {
        assert front[j] == ms[j];
      }
    }
  }

  lemma GaugeStep(t: Store, m: Metrics, name: string)
    ensures WritesGauge(m, name) ==> name in Apply(t, m).gauges && Apply(t, m).gauges[name] == m.value.value
    ensures !WritesGauge(m, name) ==> (name in Apply(t, m).gauges <==> name in t.gauges)
    ensures !WritesGauge(m, name) && name in t.gauges ==> Apply(t, m).gauges[name] == t.gauges[name]
  {
  }

  /** A gauge is its last valid write, is otherwise as before, and exists iff some valid update named it. */
  lemma {:induction false} GaugeHistory(s: Store, ms: seq<Metrics>, name: string)
    ensures name in ApplyAll(s, ms).gauges <==> name in s.gauges || GaugeNamed(ms, name)
    ensures forall i :: LastWrite(ms, name, i) ==>
                          name in ApplyAll(s, ms).gauges && ApplyAll(s, ms).gauges[name] == ms[i].value.value
    ensures !GaugeNamed(ms, name) && name in s.gauges ==> ApplyAll(s, ms).gauges[name] == s.gauges[name]
  {
    if ms != [] {
      var front := ms[..|ms| - 1];
      GaugeHistory(s, front, name);
      GaugeNamedSnoc(ms, name);
      GaugeStep(ApplyAll(s, front), ms[|ms| - 1], name);
      forall i | LastWrite(ms, name, i)
        ensures name in ApplyAll(s, ms).gauges && ApplyAll(s, ms).gauges[name] == ms[i].value.value
      {
        LastWriteSnoc(ms, name, i);
      }
    }
  }

  lemma {:induction false} HasLastWrite(ms: seq<Metrics>, name: string) returns (i: int)
    requires GaugeNamed(ms, name)
    ensures LastWrite(ms, name, i)
  {
    var front := ms[..|ms| - 1];
    if WritesGauge(ms[|ms| - 1], name) {
      i := |ms| - 1;
    } else {
      var k :| 0 <= k < |ms| && WritesGauge(ms[k], name);
      assert WritesGauge(front[k], name);
      i := HasLastWrite(front, name);
    }
  }

  lemma {:induction false} DeltaSumConcat(a: seq<Metrics>, b: seq<Metrics>, name: string)
    ensures DeltaSum(a + b, name) == DeltaSum(a, name) + DeltaSum(b, name)
  {
    if b == [] {
      assert a + b == a;
    } else {
      DeltaSumConcat(a, b[..|b| - 1], name);
      assert (a + b)[..|a + b| - 1] == a + b[..|b| - 1];
    }
  }

  lemma {:induction false} DeltaSumSnoc(a: seq<Metrics>, m: Metrics, name: string)
    ensures DeltaSum(a + [m], name) == DeltaSum(a, name) + DeltaOf(m, name)
  {
    assert (a + [m])[..|a|] == a;
  }

  lemma {:induction false} DeltaSumWithout(b: seq<Metrics>, j: nat, name: string)
    requires j < |b|
    ensures DeltaSum(b, name) == DeltaSum(Without(b, j), name) + DeltaOf(b[j], name)
  {
    var front, back := b[..j], b[j + 1..];
    assert b == front + [b[j]] + back;
    DeltaSumConcat(front + [b[j]], back, name);
    DeltaSumSnoc(front, b[j], name);
    DeltaSumConcat(front, back, name);
  }

  lemma {:induction false} DeltaSumPermuted(a: seq<Metrics>, b: seq<Metrics>, name: string)
    requires multiset(a) == multiset(b)
    ensures DeltaSum(a, name) == DeltaSum(b, name)
    decreases |a|
  {
    assert |a| == |multiset(a)| == |multiset(b)| == |b|;
    if a != [] {
      var n := |a| - 1;
      assert a[n] in multiset(b);
      var j :| 0 <= j < |b| && b[j] == a[n];
      WithoutMultiset(a, n);
      WithoutMultiset(b, j);
      DeltaSumPermuted(Without(a, n), Without(b, j), name);
      DeltaSumWithout(a, n, name);
      DeltaSumWithout(b, j, name);
    }
  }

  lemma NamedPermuted(a: seq<Metrics>, b: seq<Metrics>, name: string)
    requires multiset(a) == multiset(b) && CounterNamed(a, name)
    ensures CounterNamed(b, name)
  {
    var i :| 0 <= i < |a| && AddsCounter(a[i], name);
    assert a[i] in multiset(b);
    var k :| 0 <= k < |b| && b[k] == a[i];
    assert AddsCounter(b[k], name);
  }

  lemma CounterIgnoresOrder(s: Store, a: seq<Metrics>, b: seq<Metrics>, name: string)
    requires multiset(a) == multiset(b)
    ensures name in ApplyAll(s, a).counters <==> name in ApplyAll(s, b).counters
    ensures Count(ApplyAll(s, a), name) == Count(ApplyAll(s, b), name)
  {
    CounterHistory(s, a, name);
    CounterHistory(s, b, name);
    DeltaSumPermuted(a, b, name);
    if CounterNamed(a, name) {
      NamedPermuted(a, b, name);
    } else if CounterNamed(b, name) {
      NamedPermuted(b, a, name);
    }
  }

  /** Reordering a history leaves every counter unchanged. */
  lemma CountersIgnoreOrder(s: Store, a: seq<Metrics>, b: seq<Metrics>)
    requires multiset(a) == multiset(b)
    ensures ApplyAll(s, a).counters == ApplyAll(s, b).counters
  {
    var x, y := ApplyAll(s, a), ApplyAll(s, b);
    forall name
      ensures name in x.counters <==> name in y.counters
      ensures Count(x, name) == Count(y, name)
    {
      CounterIgnoresOrder(s, a, b, name);
    }
    assert x.counters.Keys == y.counters.Keys;
    forall name | name in x.counters ensures x.counters[name] == y.counters[name] {
      assert Count(x, name) == Count(y, name);
    }
  }

  /** Two stores agree when they agree name by name. */
  lemma SameStore(x: Store, y: Store)
    requires forall name :: (name in x.gauges <==> name in y.gauges) && (name in x.counters <==> name in y.counters)
    requires forall name :: name in x.gauges && name in y.gauges ==> x.gauges[name] == y.gauges[name]
    requires forall name :: Count(x, name) == Count(y, name)
    ensures x == y
  {
    assert x.gauges.Keys == y.gauges.Keys;
    assert x.counters.Keys == y.counters.Keys;
    forall name | name in x.counters ensures x.counters[name] == y.counters[name] {
      assert Count(x, name) == Count(y, name);
    }
    assert x.gauges == y.gauges && x.counters == y.counters;
  }
}
