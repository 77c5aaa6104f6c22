/** The two transports of a batch: JSON over HTTP (sender.go, handler.go) and protobuf over
    gRPC (grpc_sender.go, grpcserver/server.go), both ending in the service's UpdateBatch. */
module Transport {
  import opened Model
  import opened Storage
  import opened MemoryBackend
  import opened FileBackend
  import opened Service

  /** Metric.MType; proto3 enums are open, so other numbers can arrive. */
  datatype PbType = PbGauge | PbCounter | PbUnknown(number: int)

  datatype PbMetric = PbMetric(id: string, mtype: PbType, delta: Int64, value: Float64)

  const ZERO := Finite(0.0)

  /** The entries the gRPC sender keeps, as protobuf. */
  function Kept(m: Metrics): seq<PbMetric> {
    if IsGauge(m) then [PbMetric(m.id, PbGauge, 0, m.value.value)]
    else if IsCounter(m) then [PbMetric(m.id, PbCounter, m.delta.value, ZERO)]
    else []
  }

  function ToProto(ms: seq<Metrics>): seq<PbMetric> {
    if ms == [] then [] else ToProto(ms[..|ms| - 1]) + Kept(ms[|ms| - 1])
  }

  function FromOne(p: PbMetric): Metrics
    requires !p.mtype.PbUnknown?
  {
    if p.mtype.PbGauge? then GaugeMetric(p.id, p.value) else CounterMetric(p.id, p.delta)
  }

  predicate AllKnown(ps: seq<PbMetric>) {
    forall i :: 0 <= i < |ps| ==> !ps[i].mtype.PbUnknown?
  }

  function FromProto(ps: seq<PbMetric>): seq<Metrics>
    requires AllKnown(ps)
  {
    if ps == [] then [] else FromProto(ps[..|ps| - 1]) + [FromOne(ps[|ps| - 1])]
  }

  /** The conversion loop of GRPCSender.SendBatch. */
  method ConvertBatch(metrics: seq<Metrics>) returns (req: seq<PbMetric>)
    ensures req == ToProto(metrics)
  {
    req := [];
    for i := 0 to |metrics|
      invariant req == ToProto(metrics[..i])
    {
      var m := metrics[i];
      assert metrics[..i + 1][..i] == metrics[..i];
      if m.mtype == GAUGE {
        if m.value.None? { continue; }
        req := req + [PbMetric(m.id, PbGauge, 0, m.value.value)];
      } else if m.mtype == COUNTER {
        if m.delta.None? { continue; }
        req := req + [PbMetric(m.id, PbCounter, m.delta.value, ZERO)];
      }
    }
    assert metrics[..|metrics|] == metrics;
  }

  /** MetricsServer.UpdateMetrics: one unknown type refuses the whole request. */
  method UpdateMetrics(svc: MetricService, req: seq<PbMetric>) returns (ok: bool)
    modifies svc`notified, svc.storage
    ensures ok <==> AllKnown(req)
    ensures ok ==> && svc.storage.Contents() == ApplyAll(old(svc.storage.Contents()), FromProto(req))
                   && svc.notified == old(svc.notified) + (if svc.onUpdate && req != [] then 1 else 0)
    ensures !ok ==> svc.storage.Contents() == old(svc.storage.Contents()) && svc.notified == old(svc.notified)
  {
    var metrics: seq<Metrics> := [];
    for i := 0 to |req|
      invariant AllKnown(req[..i]) && metrics == FromProto(req[..i]) && |metrics| == i
      invariant svc.storage.Contents() == old(svc.storage.Contents()) && svc.notified == old(svc.notified)
    {
      var m := req[i];
      assert req[..i + 1][..i] == req[..i];
      match m.mtype {
        case PbGauge => metrics := metrics + [GaugeMetric(m.id, m.value)];
        case PbCounter => metrics := metrics + [CounterMetric(m.id, m.delta)];
        case PbUnknown(_) => return false;
      }
    }
    assert req[..|req|] == req;
    var e := svc.UpdateBatch(metrics);
    return true;
  }

  /** UpdateMetricsBatch on a decoded body. */
  method UpdateMetricsBatch(svc: MetricService, metrics: seq<Metrics>)
    modifies svc`notified, svc.storage
    ensures svc.storage.Contents() == ApplyAll(old(svc.storage.Contents()), metrics)
    ensures svc.notified == old(svc.notified) + (if svc.onUpdate && metrics != [] then 1 else 0)
  {
    if |metrics| == 0 { return; }
    var e := svc.UpdateBatch(metrics);
  }

  lemma {:induction false} ToProtoKnown(ms: seq<Metrics>)
    ensures AllKnown(ToProto(ms))
  {
    if ms != [] {
      ToProtoKnown(ms[..|ms| - 1]);
    }
  }

  lemma FromProtoSnoc(ps: seq<PbMetric>, p: PbMetric)
    requires AllKnown(ps) && !p.mtype.PbUnknown?
    ensures AllKnown(ps + [p]) && FromProto(ps + [p]) == FromProto(ps) + [FromOne(p)]
  {
    assert (ps + [p])[..|ps|] == ps;
  }

  lemma KeptMeansSame(t: Store, m: Metrics)
    ensures Apply(t, m) == if Kept(m) == [] then t else Apply(t, FromOne(Kept(m)[0]))
    ensures |Kept(m)| <= 1
  {
    assert GAUGE != COUNTER;
  }

  /** Crossing gRPC and coming back has the effect of the original batch on every store: what
      the sender drops is exactly what storage ignores. */
  lemma {:induction false} GrpcKeepsMeaning(s: Store, ms: seq<Metrics>)
    ensures AllKnown(ToProto(ms))
    ensures ApplyAll(s, FromProto(ToProto(ms))) == ApplyAll(s, ms)
  {
    ToProtoKnown(ms);
    if ms != [] {
      var front, m := ms[..|ms| - 1], ms[|ms| - 1];
      GrpcKeepsMeaning(s, front);
      KeptMeansSame(ApplyAll(s, front), m);
      if Kept(m) != [] {
        var p := Kept(m)[0];
        assert ToProto(ms) == ToProto(front) + [p];
        FromProtoSnoc(ToProto(front), p);
        ApplyAllSnoc(s, FromProto(ToProto(front)), FromOne(p));
      } else {
        assert ToProto(ms) == ToProto(front);
      }
    }
  }

  lemma {:induction false} NothingKept(ms: seq<Metrics>)
    ensures ToProto(ms) == [] <==> forall i :: 0 <= i < |ms| ==> !IsGauge(ms[i]) && !IsCounter(ms[i])
  {
    if ms != [] {
      var front := ms[..|ms| - 1];
      NothingKept(front);
      assert forall i :: 0 <= i < |front| ==> front[i] == ms[i];
    }
  }

  /** The whole gRPC path. */
  method SendBatchGrpc(svc: MetricService, metrics: seq<Metrics>) returns (ok: bool)
    modifies svc`notified, svc.storage
    ensures ok && svc.storage.Contents() == ApplyAll(old(svc.storage.Contents()), metrics)
    ensures svc.notified == old(svc.notified) +
            (if svc.onUpdate && exists i :: 0 <= i < |metrics| && (IsGauge(metrics[i]) || IsCounter(metrics[i])) then 1 else 0)
  {
    var req := ConvertBatch(metrics);
    GrpcKeepsMeaning(svc.storage.Contents(), metrics);
    NothingKept(metrics);
    ok := UpdateMetrics(svc, req);
  }

  /** The whole HTTP path: an unencodable batch is not sent, nor is an empty one. */
  method SendBatchHttp(svc: MetricService, metrics: seq<Metrics>) returns (ok: bool)
    modifies svc`notified, svc.storage
    ensures ok <==> AllEncodable(metrics)
    ensures svc.storage.Contents() ==
            if ok then ApplyAll(old(svc.storage.Contents()), metrics) else old(svc.storage.Contents())
    ensures svc.notified == old(svc.notified) + (if svc.onUpdate && ok && metrics != [] then 1 else 0)
  {
    if |metrics| == 0 { return true; }
    if !AllEncodable(metrics) { return false; }
    UpdateMetricsBatch(svc, metrics);
    return true;
  }

  /** Run both paths from equal stores. The stores stay equal for every batch JSON can carry;
      the save callback differs exactly on a non-empty batch with nothing valid in it, for
      which HTTP still notifies and gRPC does not. */
  method BothTransports(a: MetricService, b: MetricService, metrics: seq<Metrics>)
    requires a != b && a.storage != b.storage && a.storage.Contents() == b.storage.Contents()
    requires a.onUpdate && b.onUpdate && a.notified == b.notified && AllEncodable(metrics)
    modifies a, a.storage, b, b.storage
    ensures a.storage.Contents() == b.storage.Contents() == ApplyAll(old(a.storage.Contents()), metrics)
    ensures a.notified == b.notified <==>
            metrics == [] || exists i :: 0 <= i < |metrics| && (IsGauge(metrics[i]) || IsCounter(metrics[i]))
  {
    var okHttp := SendBatchHttp(a, metrics);
    var okGrpc := SendBatchGrpc(b, metrics);
  }
}
