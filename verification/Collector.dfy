/** internal/agent/collector.go and `convertToModelMetrics`: the agent's own state and the
    batch a report is made of. Sampled values are parameters. */
module Collecting {
  import opened Model
  import opened Storage
  import opened MemoryBackend

  datatype Snapshot = Snapshot(gauges: map<string, Float64>, counter: Int64)

  const POLL_COUNT := "PollCount"

  const RUNTIME_NAMES := {
    "Alloc", "BuckHashSys", "Frees", "GCCPUFraction", "GCSys", "HeapAlloc", "HeapIdle", "HeapInuse",
    "HeapObjects", "HeapReleased", "HeapSys", "LastGC", "Lookups", "MCacheInuse", "MCacheSys",
    "MSpanInuse", "MSpanSys", "Mallocs", "NextGC", "NumForcedGC", "NumGC", "OtherSys",
    "PauseTotalNs", "StackInuse", "StackSys", "Sys", "TotalAlloc", "RandomValue"}

  /** The keys one `Collect` writes. */
  predicate IsRuntimeSample(sample: map<string, Float64>) {
    sample.Keys == RUNTIME_NAMES
  }

  function Collected(s: Snapshot, sample: map<string, Float64>): Snapshot {
    Snapshot(s.gauges + sample, Wrap(s.counter + 1))
  }

  function ExtraCollected(s: Snapshot, sample: map<string, Float64>): Snapshot {
    s.(gauges := s.gauges + sample)
  }

  function Itoa(n: nat): string {
    if n < 10 then ["0123456789"[n]] else Itoa(n / 10) + ["0123456789"[n % 10]]
  }

  function CpuName(i: nat): string {
    "CPUutilization" + Itoa(i + 1)
  }

  /** The gauges one successful extra sample sets. */
  function ExtraSample(total: Float64, free: Float64, cpus: seq<Float64>): map<string, Float64> {
    if cpus == [] then map["TotalMemory" := total, "FreeMemory" := free]
    else ExtraSample(total, free, cpus[..|cpus| - 1])[CpuName(|cpus| - 1) := cpus[|cpus| - 1]]
  }

  // ---- which name holds which value ----

  function DigitOf(c: char): nat {
    if '0' <= c <= '9' then c as int - '0' as int else 0
  }

  function Atoi(s: string): nat {
    if s == "" then 0 else Atoi(s[..|s| - 1]) * 10 + DigitOf(s[|s| - 1])
  }

  lemma Digits(d: nat)
    requires d < 10
    ensures DigitOf("0123456789"[d]) == d
  {
    assert "0123456789"[d] == '0' + d as char;
  }

  lemma {:induction false} AtoiItoa(n: nat)
    ensures Atoi(Itoa(n)) == n
  {
    if n < 10 {
      Digits(n);
      assert [Itoa(n)[0]] == Itoa(n) && Itoa(n)[..0] == "";
    } else {
      AtoiItoa(n / 10);
      Digits(n % 10);
      assert Itoa(n)[..|Itoa(n)| - 1] == Itoa(n / 10);
    }
  }

  /** CPU gauges are numbered from one, each CPU has its own, and none is a memory gauge. */
  lemma CpuNames(i: nat, j: nat)
    ensures CpuName(0) == "CPUutilization1"
    ensures CpuName(i) == CpuName(j) <==> i == j
    ensures CpuName(i) != "TotalMemory" && CpuName(i) != "FreeMemory"
  {
    AtoiItoa(i + 1);
    AtoiItoa(j + 1);
    var prefix := "CPUutilization";
    assert CpuName(i)[|prefix|..] == Itoa(i + 1) && CpuName(j)[|prefix|..] == Itoa(j + 1);
    assert CpuName(i)[0] == 'C';
  }

  /** A successful extra sample: the two memory gauges and one gauge a CPU, with their values. */
  lemma {:induction false} ExtraSampleValues(total: Float64, free: Float64, cpus: seq<Float64>, i: nat)
    ensures var m := ExtraSample(total, free, cpus);
            && "TotalMemory" in m && m["TotalMemory"] == total
            && "FreeMemory" in m && m["FreeMemory"] == free
            && (CpuName(i) in m <==> i < |cpus|)
            && (i < |cpus| ==> m[CpuName(i)] == cpus[i])
  {
    CpuNames(i, i);
    assert "TotalMemory" != "FreeMemory" by {
      assert |"TotalMemory"| == 11 && |"FreeMemory"| == 10;
    }
    if cpus != [] {
      var n := |cpus| - 1;
      ExtraSampleValues(total, free, cpus[..n], i);
      CpuNames(n, i);
    }
  }

  lemma {:induction false} ExtraSampleKeys(total: Float64, free: Float64, cpus: seq<Float64>, name: string)
    requires name in ExtraSample(total, free, cpus)
    ensures name == "TotalMemory" || name == "FreeMemory" || exists i: nat :: i < |cpus| && name == CpuName(i)
  {
    if cpus != [] && name != CpuName(|cpus| - 1) {
      ExtraSampleKeys(total, free, cpus[..|cpus| - 1], name);
    }
  }

  /** Every sampled gauge holds its newest value, the others keep theirs, and only a runtime poll
      counts; sampling the same names again replaces what the first sample left. */
  lemma NewestSampleWins(s: Snapshot, a: map<string, Float64>, b: map<string, Float64>, name: string)
    ensures name in b ==>
              && name in Collected(s, b).gauges && Collected(s, b).gauges[name] == b[name]
              && name in ExtraCollected(s, b).gauges && ExtraCollected(s, b).gauges[name] == b[name]
    ensures name !in b && name in s.gauges ==>
              Collected(s, b).gauges[name] == s.gauges[name] && ExtraCollected(s, b).gauges[name] == s.gauges[name]
    ensures Collected(s, b).counter == Wrap(s.counter + 1) && ExtraCollected(s, b).counter == s.counter
    ensures a.Keys <= b.Keys ==>
              && ExtraCollected(ExtraCollected(s, a), b) == ExtraCollected(s, b)
              && Collected(Collected(s, a), b).gauges == Collected(s, b).gauges
  {
    if a.Keys <= b.Keys {
      assert s.gauges + a + b == s.gauges + b;
    }
  }

  /** `ms` is a report of `snap`: its gauges, each once in some order, then the poll counter. */
  ghost predicate Reports(ms: seq<Metrics>, snap: Snapshot) {
    && ms != []
    && ms[|ms| - 1] == CounterMetric(POLL_COUNT, snap.counter)
    && Enumerates(ms[..|ms| - 1], Store(snap.gauges, map[]))
  }

  lemma UpdateAfterMerge(a: map<string, Float64>, b: map<string, Float64>, k: string, v: Float64)
    ensures (a + b)[k := v] == a + b[k := v]
  {
  }

  class Collector {
    var metrics: Snapshot

    constructor ()
      ensures metrics == Snapshot(map[], 0)
    {
      metrics := Snapshot(map[], 0);
    }

    method Collect(sample: map<string, Float64>)
      requires IsRuntimeSample(sample)
      modifies this
      ensures metrics == Collected(old(metrics), sample)
    {
      var todo := sample.Keys;
      while todo != {}
        invariant todo <= sample.Keys
        invariant metrics.counter == old(metrics.counter)
        invariant metrics.gauges + sample == old(metrics.gauges) + sample
        invariant forall k :: k in sample && k !in todo ==> k in metrics.gauges && metrics.gauges[k] == sample[k]
        decreases todo
      {
        var k :| k in todo;
        metrics := metrics.(gauges := metrics.gauges[k := sample[k]]);
        todo := todo - {k};
      }
      assert metrics.gauges + sample == metrics.gauges;
      metrics := metrics.(counter := Wrap(metrics.counter + 1));
    }

    method CollectExtra(readable: bool, total: Float64, free: Float64, cpus: seq<Float64>) returns (ok: bool)
      modifies this
      ensures ok == readable
      ensures metrics == if readable then ExtraCollected(old(metrics), ExtraSample(total, free, cpus)) else old(metrics)
    {
      if !readable { return false; }
      metrics := metrics.(gauges := metrics.gauges["TotalMemory" := total]["FreeMemory" := free]);
      assert metrics.gauges == old(metrics.gauges) + map["TotalMemory" := total, "FreeMemory" := free];
      for i := 0 to |cpus|
        invariant metrics == ExtraCollected(old(metrics), ExtraSample(total, free, cpus[..i]))
      {
        assert cpus[..i + 1][..i] == cpus[..i];
        UpdateAfterMerge(old(metrics.gauges), ExtraSample(total, free, cpus[..i]), CpuName(i), cpus[i]);
        metrics := metrics.(gauges := metrics.gauges[CpuName(i) := cpus[i]]);
      }
      assert cpus[..|cpus|] == cpus;
      return true;
    }

    method GetSnapshot() returns (snapshot: Snapshot)
      ensures snapshot == metrics
    {
      var gauges: map<string, Float64> := map[];
      var todo := metrics.gauges.Keys;
      while todo != {}
        invariant todo <= metrics.gauges.Keys
        invariant gauges.Keys == metrics.gauges.Keys - todo
        invariant forall k :: k in gauges ==> gauges[k] == metrics.gauges[k]
        decreases todo
      {
        var k :| k in todo;
        gauges := gauges[k := metrics.gauges[k]];
        todo := todo - {k};
      }
      assert gauges == metrics.gauges;
      return Snapshot(gauges, metrics.counter);
    }

    method AckCounter(delta: Int64)
      modifies this
      ensures metrics == old(metrics).(counter := Wrap(old(metrics.counter) - delta))
    {
      metrics := metrics.(counter := Wrap(metrics.counter - delta));
    }
  }

  /** The counter after `k` more polls. */
  function PolledCounter(c: Int64, k: nat): Int64 {
    if k == 0 then c else Wrap(PolledCounter(c, k - 1) + 1)
  }

  lemma {:induction false} PolledIsSum(c: Int64, k: nat)
    ensures PolledCounter(c, k) == Wrap(c + k)
  {
    if k > 0 {
      PolledIsSum(c, k - 1);
      WrapAdd(c + k - 1, 1);
    }
  }

  /** Acknowledging a snapshot's counter leaves exactly the polls made since that snapshot. */
  lemma AckKeepsLaterPolls(c: Int64, k: nat)
    ensures Wrap(PolledCounter(c, k) - c) == Wrap(k)
  {
    PolledIsSum(c, k);
    var sent: int := c;
    WrapAdd(sent + k, -sent);
  }

  method ConvertToModelMetrics(snapshot: Snapshot) returns (result: seq<Metrics>)
    ensures Reports(result, snapshot)
  {
    result := [];
    var todo := snapshot.gauges.Keys;
    while todo != {}
      invariant todo <= snapshot.gauges.Keys
      invariant forall i :: 0 <= i < |result| ==>
                              && result[i].id in snapshot.gauges && result[i].id !in todo
                              && result[i] == GaugeMetric(result[i].id, snapshot.gauges[result[i].id])
      invariant forall i, j :: 0 <= i < j < |result| ==> result[i] != result[j]
      invariant forall k :: k in snapshot.gauges && k !in todo ==> GaugeMetric(k, snapshot.gauges[k]) in result
      decreases todo
    {
      var k :| k in todo;
      result := result + [GaugeMetric(k, snapshot.gauges[k])];
      todo := todo - {k};
    }
    var gauges := result;
    result := result + [CounterMetric(POLL_COUNT, snapshot.counter)];
    assert result[..|result| - 1] == gauges;
  }

  /** A report exists for every snapshot. */
  lemma {:induction false} ReportExists(snap: Snapshot) returns (ms: seq<Metrics>)
    ensures Reports(ms, snap)
  {
    var gs := EnumerationExists(Store(snap.gauges, map[]));
    ms := gs + [CounterMetric(POLL_COUNT, snap.counter)];
    assert ms[..|ms| - 1] == gs;
  }

  lemma EnumeratedGaugeAt(s: Store, gs: seq<Metrics>, g: map<string, Float64>, name: string)
    requires Enumerates(gs, Store(g, map[]))
    ensures name in ApplyAll(s, gs).gauges <==> name in s.gauges || name in g
    ensures name in g ==> ApplyAll(s, gs).gauges[name] == g[name]
    ensures name !in g && name in s.gauges ==> ApplyAll(s, gs).gauges[name] == s.gauges[name]
  {
    GaugeHistory(s, gs, name);
    EnumeratedGauge(gs, Store(g, map[]), name);
    if name in g {
      var i := HasLastWrite(gs, name);
    }
  }

  lemma NoCounters(s: Store, gs: seq<Metrics>, g: map<string, Float64>)
    requires Enumerates(gs, Store(g, map[]))
    ensures ApplyAll(s, gs).counters == s.counters
  {
    var r := ApplyAll(s, gs);
    forall name
      ensures name in r.counters <==> name in s.counters
      ensures Count(r, name) == Count(s, name)
    {
      CounterHistory(s, gs, name);
      EnumeratedCounter(gs, Store(g, map[]), name);
    }
    assert r.counters.Keys == s.counters.Keys;
    forall name | name in s.counters ensures r.counters[name] == s.counters[name] {
      assert Count(r, name) == Count(s, name);
    }
  }

  lemma EnumeratedGauges(s: Store, gs: seq<Metrics>, g: map<string, Float64>)
    requires Enumerates(gs, Store(g, map[]))
    ensures ApplyAll(s, gs) == s.(gauges := s.gauges + g)
  {
    NoCounters(s, gs, g);
    var r := ApplyAll(s, gs);
    forall name
      ensures name in r.gauges <==> name in s.gauges + g
      ensures name in r.gauges ==> r.gauges[name] == (s.gauges + g)[name]
    {
      EnumeratedGaugeAt(s, gs, g, name);
    }
    assert r.gauges == s.gauges + g;
  }

  /** What a delivered report does to a server: its gauges replace, its poll counter adds. */
  lemma ReportEffect(s: Store, ms: seq<Metrics>, snap: Snapshot)
    requires Reports(ms, snap)
    ensures ApplyAll(s, ms) == AddTo(s.(gauges := s.gauges + snap.gauges), POLL_COUNT, snap.counter)
  {
    EnumeratedGauges(s, ms[..|ms| - 1], snap.gauges);
    assert GAUGE != COUNTER;
  }
}
