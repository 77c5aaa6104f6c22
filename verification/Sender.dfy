/** internal/agent/sender.go: sends under retry. A send is a list of parts, one request each:
    `SendMetrics` has one part per metric, `SendBatch` a single part with the whole list. */
module Sender {
  import opened Model
  import opened Storage
  import opened Retry

  /** How a request ended. A request that failed may still have taken effect on the server. */
  datatype Reply =
    | Accepted
    | BadStatus(code: int, applied: bool)
    | NetworkError(timeout: bool, temporary: bool, applied: bool)

  predicate IsRetriable(r: Reply) {
    r.NetworkError? && (r.timeout || r.temporary)
  }

  predicate TookEffect(r: Reply) {
    r.Accepted? || r.applied
  }

  /** One request made, with its reply. */
  datatype Exchange = Exchange(part: seq<Metrics>, reply: Reply)

  /** The requests of one pass over the parts: in order, up to the first failure. */
  function Pass(parts: seq<seq<Metrics>>, replies: nat -> Reply): seq<Exchange> {
    if parts == [] then []
    else
      var before := Pass(parts[..|parts| - 1], replies);
      if AllAccepted(before) then before + [Exchange(parts[|parts| - 1], replies(|parts| - 1))] else before
  }

  predicate AllAccepted(es: seq<Exchange>) {
    forall i :: 0 <= i < |es| ==> es[i].reply.Accepted?
  }

  function PassOutcome(es: seq<Exchange>): Outcome {
    if AllAccepted(es) then Ok else Err(IsRetriable(es[|es| - 1].reply))
  }

  function Passes(parts: seq<seq<Metrics>>, replies: nat -> nat -> Reply): (seq<Exchange>, nat) -> (seq<Exchange>, Outcome) {
    (log: seq<Exchange>, i: nat) => (log + Pass(parts, replies(i)), PassOutcome(Pass(parts, replies(i))))
  }

  class HttpSender {
    var log: seq<Exchange>    // every request ever made

    constructor ()
      ensures log == []
    {
      log := [];
    }

    /** The body of the retried closure. */
    method SendOnce(parts: seq<seq<Metrics>>, replies: nat -> Reply) returns (o: Outcome)
      modifies this
      ensures log == old(log) + Pass(parts, replies) && o == PassOutcome(Pass(parts, replies))
    {
      for i := 0 to |parts|
        invariant log == old(log) + Pass(parts[..i], replies) && AllAccepted(Pass(parts[..i], replies))
      {
        assert parts[..i + 1][..i] == parts[..i];
        var reply := replies(i);
        log := log + [Exchange(parts[i], reply)];
        ghost var p := Pass(parts[..i + 1], replies);
        assert p == Pass(parts[..i], replies) + [Exchange(parts[i], reply)];
        if !reply.Accepted? {
          assert p[|p| - 1].reply == reply;
          PassStops(parts, replies, i + 1);
          return Err(IsRetriable(reply));
        }
      }
      assert parts[..|parts|] == parts;
      return Ok;
    }

    method Send(parts: seq<seq<Metrics>>, replies: nat -> nat -> Reply) returns (o: Outcome, attempts: nat)
      modifies this
      ensures Result(log, o, attempts) == Do(Passes(parts, replies), old(log))
    {
      attempts := 0;
      o := Err(true);
      while o == Err(true) && attempts < LIMIT
        invariant attempts <= LIMIT
        invariant attempts == 0 ==> o == Err(true)
        invariant if o == Err(true) && attempts < LIMIT
                  then DoFrom(Passes(parts, replies), log, attempts) == Do(Passes(parts, replies), old(log))
                  else Result(log, o, attempts) == Do(Passes(parts, replies), old(log))
        decreases LIMIT - attempts
      {
        o := SendOnce(parts, replies(attempts));
        attempts := attempts + 1;
      }
    }

    method SendMetrics(metrics: seq<Metrics>, replies: nat -> nat -> Reply) returns (o: Outcome, attempts: nat)
      modifies this
      ensures var r := SendSpec(metrics, replies);
              log == old(log) + r.state && o == r.outcome && attempts == r.attempts
    {
      EarlierLog(Singles(metrics), replies, log, [], 0);
      assert log + [] == log;
      o, attempts := Send(Singles(metrics), replies);
    }

    method SendBatch(metrics: seq<Metrics>, replies: nat -> nat -> Reply) returns (o: Outcome, attempts: nat)
      modifies this
      ensures metrics == [] ==> o == Ok && attempts == 0 && log == old(log)
      ensures metrics != [] ==> Result(log, o, attempts) == Do(Passes([metrics], replies), old(log))
    {
      if |metrics| == 0 { return Ok, 0; }
      o, attempts := Send([metrics], replies);
    }
  }

  /** Requests already logged do not matter. */
  lemma {:induction false} EarlierLog(parts: seq<seq<Metrics>>, replies: nat -> nat -> Reply, made: seq<Exchange>, log: seq<Exchange>, i: nat)
    requires i < LIMIT
    ensures var op := Passes(parts, replies);
            var r := DoFrom(op, log, i);
            DoFrom(op, made + log, i) == Result(made + r.state, r.outcome, r.attempts)
    decreases LIMIT - i
  {
    var op := Passes(parts, replies);
    var (u, o) := op(log, i);
    assert op(made + log, i) == (made + u, o) by {
      assert made + (log + Pass(parts, replies(i))) == (made + log) + Pass(parts, replies(i));
    }
    if o == Err(true) && i + 1 < LIMIT {
      EarlierLog(parts, replies, made, u, i + 1);
    }
  }

  function Singles(ms: seq<Metrics>): seq<seq<Metrics>> {
    seq(|ms|, i requires 0 <= i < |ms| => [ms[i]])
  }

  lemma {:induction false} PassStops(parts: seq<seq<Metrics>>, replies: nat -> Reply, k: nat)
    requires k <= |parts| && !AllAccepted(Pass(parts[..k], replies))
    ensures Pass(parts, replies) == Pass(parts[..k], replies)
    decreases |parts| - k
  {
    if k == |parts| {
      assert parts[..k] == parts;
    } else {
      assert parts[..k + 1][..k] == parts[..k];
      PassStops(parts, replies, k + 1);
    }
  }

  /** A pass is a prefix of the parts in order; only its last request can have failed, and it
      covers every part unless it did. */
  lemma {:induction false} PassShape(parts: seq<seq<Metrics>>, replies: nat -> Reply)
    ensures var p := Pass(parts, replies);
            && |p| <= |parts|
            && (forall i :: 0 <= i < |p| ==> p[i] == Exchange(parts[i], replies(i)))
            && (forall i :: 0 <= i < |p| - 1 ==> p[i].reply.Accepted?)
            && (AllAccepted(p) ==> |p| == |parts|)
  {
    if parts != [] {
      PassShape(parts[..|parts| - 1], replies);
    }
  }

  // ---- what the server ends up with ----

  function Flatten(parts: seq<seq<Metrics>>): seq<Metrics> {
    if parts == [] then [] else Flatten(parts[..|parts| - 1]) + parts[|parts| - 1]
  }

  /** What took effect, in order. */
  function Applied(es: seq<Exchange>): seq<Metrics> {
    if es == [] then []
    else Applied(es[..|es| - 1]) + (if TookEffect(es[|es| - 1].reply) then es[|es| - 1].part else [])
  }

  lemma {:induction false} AppliedConcat(a: seq<Exchange>, b: seq<Exchange>)
    ensures Applied(a + b) == Applied(a) + Applied(b)
  {
    if b == [] {
      assert a + b == a;
    } else {
      AppliedConcat(a, b[..|b| - 1]);
      assert (a + b)[..|a + b| - 1] == a + b[..|b| - 1];
    }
  }

  lemma {:induction false} FullPassApplies(es: seq<Exchange>, parts: seq<seq<Metrics>>)
    requires |es| == |parts| && AllAccepted(es) && forall i :: 0 <= i < |es| ==> es[i].part == parts[i]
    ensures Applied(es) == Flatten(parts)
  {
    if es != [] {
      FullPassApplies(es[..|es| - 1], parts[..|parts| - 1]);
    }
  }

  lemma {:induction false} PartInFlatten(parts: seq<seq<Metrics>>, i: nat, m: Metrics)
    requires i < |parts| && m in parts[i]
    ensures m in Flatten(parts)
  {
    if i < |parts| - 1 {
      PartInFlatten(parts[..|parts| - 1], i, m);
    }
  }

  lemma {:induction false} AppliedFrom(es: seq<Exchange>, parts: seq<seq<Metrics>>, m: Metrics)
    requires forall i :: 0 <= i < |es| ==> es[i].part in parts
    requires m in Applied(es)
    ensures m in Flatten(parts)
  {
    var n := |es| - 1;
    if m in Applied(es[..n]) {
      AppliedFrom(es[..n], parts, m);
    } else {
      var i :| 0 <= i < |parts| && parts[i] == es[n].part;
      PartInFlatten(parts, i, m);
    }
  }

  lemma {:induction false} LogParts(parts: seq<seq<Metrics>>, replies: nat -> nat -> Reply, n: nat)
    ensures forall i :: 0 <= i < |Seen(Passes(parts, replies), [], n)| ==> Seen(Passes(parts, replies), [], n)[i].part in parts
  {
    if n > 0 {
      LogParts(parts, replies, n - 1);
      PassShape(parts, replies(n - 1));
    }
  }

  /** Re-sending entries that the final complete pass sends again does not change a gauge. */
  lemma GaugesAbsorbRepeats(s: Store, pre: seq<Metrics>, list: seq<Metrics>)
    requires forall m :: m in pre ==> m in list
    ensures ApplyAll(s, pre + list).gauges == ApplyAll(s, list).gauges
  {
    var a, b := ApplyAll(s, pre + list).gauges, ApplyAll(s, list).gauges;
    forall name ensures (name in a <==> name in b) && (name in a && name in b ==> a[name] == b[name]) {
      GaugeAbsorbs(s, pre, list, name);
    }
    assert a.Keys == b.Keys;
  }

  lemma GaugeAbsorbs(s: Store, pre: seq<Metrics>, list: seq<Metrics>, name: string)
    requires forall m :: m in pre ==> m in list
    ensures var a, b := ApplyAll(s, pre + list).gauges, ApplyAll(s, list).gauges;
            (name in a <==> name in b) && (name in a && name in b ==> a[name] == b[name])
  {
    var all := pre + list;
    GaugeHistory(s, all, name);
    GaugeHistory(s, list, name);
    if GaugeNamed(list, name) {
      var i := HasLastWrite(list, name);
      assert all[|pre| + i] == list[i];
      forall j | |pre| + i < j < |all| ensures !WritesGauge(all[j], name) {
        assert all[j] == list[j - |pre|];
      }
      assert LastWrite(all, name, |pre| + i);
    } else {
      forall j | 0 <= j < |all| ensures !WritesGauge(all[j], name) {
        if j < |pre| {
          assert all[j] in list;
          var k :| 0 <= k < |list| && list[k] == all[j];
          assert !WritesGauge(list[k], name);
        } else {
          assert all[j] == list[j - |pre|];
        }
      }
    }
  }

  /** Under any schedule of failures: at most four passes, each a prefix of the parts in order,
      and nil exactly when the last pass got every part accepted. */
  lemma {:induction false} SendContract(parts: seq<seq<Metrics>>, replies: nat -> nat -> Reply)
    ensures var r := Do(Passes(parts, replies), []);
            && 1 <= r.attempts <= 4
            && r.state == Seen(Passes(parts, replies), [], r.attempts - 1) + Pass(parts, replies(r.attempts - 1))
            && (r.outcome.Ok? <==> AllAccepted(Pass(parts, replies(r.attempts - 1))))
            && (forall k: nat :: k < r.attempts - 1 ==> PassOutcome(Pass(parts, replies(k))) == Err(true))
  {
    var op := Passes(parts, replies);
    DoContract(op, []);
    forall k: nat | k < Do(op, []).attempts - 1 ensures PassOutcome(Pass(parts, replies(k))) == Err(true) {
      assert op(Seen(op, [], k), k).1 == Err(true);
    }
  }

  function LogAfter(parts: seq<seq<Metrics>>, replies: nat -> nat -> Reply, n: nat): seq<Exchange> {
    Seen(Passes(parts, replies), [], n)
  }

  /** The log up to a complete pass: whatever took effect earlier, then the whole list. */
  lemma {:induction false} CompleteLog(parts: seq<seq<Metrics>>, replies: nat -> nat -> Reply, n: nat) returns (pre: seq<Metrics>)
    requires n > 0 && AllAccepted(Pass(parts, replies(n - 1)))
    ensures Applied(LogAfter(parts, replies, n)) == pre + Flatten(parts)
    ensures forall m :: m in pre ==> m in Flatten(parts)
  {
    var earlier, last := LogAfter(parts, replies, n - 1), Pass(parts, replies(n - 1));
    PassShape(parts, replies(n - 1));
    FullPassApplies(last, parts);
    SeenStep(parts, replies, n);
    AppliedConcat(earlier, last);
    pre := Applied(earlier);
    forall m | m in pre ensures m in Flatten(parts) {
      EarlierInList(parts, replies, n - 1, m);
    }
  }

  lemma EarlierInList(parts: seq<seq<Metrics>>, replies: nat -> nat -> Reply, n: nat, m: Metrics)
    requires m in Applied(LogAfter(parts, replies, n))
    ensures m in Flatten(parts)
  {
    LogParts(parts, replies, n);
    AppliedFrom(LogAfter(parts, replies, n), parts, m);
  }

  // ---- how often each part took effect ----

  /** Whether the request for part `i` took effect in a pass. */
  function Effect(es: seq<Exchange>, i: nat): nat {
    if i < |es| && TookEffect(es[i].reply) then 1 else 0
  }

  /** How many of the first `n` passes had an effective request for part `i`. */
  function Copies(parts: seq<seq<Metrics>>, replies: nat -> nat -> Reply, n: nat, i: nat): nat {
    if n == 0 then 0 else Copies(parts, replies, n - 1, i) + Effect(Pass(parts, replies(n - 1)), i)
  }

  /** What the first `m` parts add to a counter, each as often as it took effect. */
  function Gain(parts: seq<seq<Metrics>>, replies: nat -> nat -> Reply, n: nat, m: nat, name: string): int
    requires m <= |parts|
  {
    if m == 0 then 0
    else Gain(parts, replies, n, m - 1, name) + Copies(parts, replies, n, m - 1) * DeltaSum(parts[m - 1], name)
  }

  /** The same for a single pass. */
  function PassGain(parts: seq<seq<Metrics>>, es: seq<Exchange>, m: nat, name: string): int
    requires m <= |parts|
  {
    if m == 0 then 0 else PassGain(parts, es, m - 1, name) + Effect(es, m - 1) * DeltaSum(parts[m - 1], name)
  }

  lemma {:induction false} GainByPass(parts: seq<seq<Metrics>>, replies: nat -> nat -> Reply, n: nat, m: nat, name: string)
    requires n > 0 && m <= |parts|
    ensures Gain(parts, replies, n, m, name) ==
            Gain(parts, replies, n - 1, m, name) + PassGain(parts, Pass(parts, replies(n - 1)), m, name)
  {
    if m > 0 {
      GainByPass(parts, replies, n, m - 1, name);
      Distribute(Copies(parts, replies, n - 1, m - 1), Effect(Pass(parts, replies(n - 1)), m - 1), DeltaSum(parts[m - 1], name));
    }
  }

  lemma Distribute(a: int, b: int, c: int)
    ensures (a + b) * c == a * c + b * c
  {
  }

  lemma {:induction false} NothingSent(parts: seq<seq<Metrics>>, replies: nat -> nat -> Reply, m: nat, name: string)
    requires m <= |parts|
    ensures Gain(parts, replies, 0, m, name) == 0
  {
    if m > 0 {
      NothingSent(parts, replies, m - 1, name);
    }
  }

  /** Beyond the end of a pass nothing is added. */
  lemma {:induction false} PassGainEnds(parts: seq<seq<Metrics>>, es: seq<Exchange>, m: nat, name: string)
    requires |es| <= m <= |parts|
    ensures PassGain(parts, es, m, name) == PassGain(parts, es, |es|, name)
  {
    if |es| < m {
      PassGainEnds(parts, es, m - 1, name);
    }
  }

  lemma {:induction false} PassGainPrefix(parts: seq<seq<Metrics>>, es: seq<Exchange>, m: nat, name: string)
    requires m < |es| <= |parts|
    ensures PassGain(parts, es[..|es| - 1], m, name) == PassGain(parts, es, m, name)
  {
    if m > 0 {
      PassGainPrefix(parts, es, m - 1, name);
    }
  }

  lemma {:induction false} AppliedGain(parts: seq<seq<Metrics>>, es: seq<Exchange>, name: string)
    requires |es| <= |parts| && forall i :: 0 <= i < |es| ==> es[i].part == parts[i]
    ensures DeltaSum(Applied(es), name) == PassGain(parts, es, |es|, name)
  {
    if es != [] {
      var n := |es| - 1;
      AppliedGain(parts, es[..n], name);
      PassGainPrefix(parts, es, n, name);
      DeltaSumConcat(Applied(es[..n]), if TookEffect(es[n].reply) then es[n].part else [], name);
    }
  }

  /** One more pass in the log. */
  lemma {:induction false} PassAdds(parts: seq<seq<Metrics>>, before: seq<Exchange>, replies: nat -> Reply, name: string)
    ensures var es := Pass(parts, replies);
            DeltaSum(Applied(before + es), name) == DeltaSum(Applied(before), name) + PassGain(parts, es, |parts|, name)
  {
    var es := Pass(parts, replies);
    AppliedConcat(before, es);
    DeltaSumConcat(Applied(before), Applied(es), name);
    PassShape(parts, replies);
    AppliedGain(parts, es, name);
    PassGainEnds(parts, es, |parts|, name);
  }

  lemma {:induction false} LogGain(parts: seq<seq<Metrics>>, replies: nat -> nat -> Reply, n: nat, name: string)
    ensures DeltaSum(Applied(Seen(Passes(parts, replies), [], n)), name) == Gain(parts, replies, n, |parts|, name)
  {
    if n == 0 {
      NothingSent(parts, replies, |parts|, name);
    } else {
      LogGain(parts, replies, n - 1, name);
      LogGainStep(parts, replies, n, name);
    }
  }

  lemma {:induction false} LogGainStep(parts: seq<seq<Metrics>>, replies: nat -> nat -> Reply, n: nat, name: string)
    requires n > 0
    requires DeltaSum(Applied(Seen(Passes(parts, replies), [], n - 1)), name) == Gain(parts, replies, n - 1, |parts|, name)
    ensures DeltaSum(Applied(Seen(Passes(parts, replies), [], n)), name) == Gain(parts, replies, n, |parts|, name)
  {
    var before := Seen(Passes(parts, replies), [], n - 1);
    SeenStep(parts, replies, n);
    PassAdds(parts, before, replies(n - 1), name);
    GainByPass(parts, replies, n, |parts|, name);
  }

  lemma SeenStep(parts: seq<seq<Metrics>>, replies: nat -> nat -> Reply, n: nat)
    requires n > 0
    ensures Seen(Passes(parts, replies), [], n) == Seen(Passes(parts, replies), [], n - 1) + Pass(parts, replies(n - 1))
  {
  }

  lemma {:induction false} CopiesBounds(parts: seq<seq<Metrics>>, replies: nat -> nat -> Reply, n: nat, i: nat)
    ensures Copies(parts, replies, n, i) <= n
  {
    if n > 0 {
      CopiesBounds(parts, replies, n - 1, i);
    }
  }

  /** A complete pass adds every part once. */
  lemma {:induction false} FullPassGain(parts: seq<seq<Metrics>>, es: seq<Exchange>, m: nat, name: string)
    requires m <= |parts| == |es| && AllAccepted(es)
    ensures PassGain(parts, es, m, name) == DeltaSum(Flatten(parts[..m]), name)
  {
    if m > 0 {
      FullPassGain(parts, es, m - 1, name);
      assert parts[..m][..m - 1] == parts[..m - 1];
      assert es[m - 1].reply.Accepted?;
      DeltaSumConcat(Flatten(parts[..m - 1]), parts[m - 1], name);
    }
  }

  /** A counter gains each part's deltas once per request for that part that took effect. */
  lemma {:induction false} CounterGain(s: Store, parts: seq<seq<Metrics>>, replies: nat -> nat -> Reply, n: nat, name: string)
    ensures Count(ApplyAll(s, Applied(LogAfter(parts, replies, n))), name) ==
            Wrap(Count(s, name) + Gain(parts, replies, n, |parts|, name))
    ensures forall i: nat :: Copies(parts, replies, n, i) <= n
  {
    LogGain(parts, replies, n, name);
    CounterHistory(s, Applied(LogAfter(parts, replies, n)), name);
    forall i: nat ensures Copies(parts, replies, n, i) <= n {
      CopiesBounds(parts, replies, n, i);
    }
  }

  /** A pass that got everything accepted adds the whole list once. */
  lemma {:induction false} FinalPass(parts: seq<seq<Metrics>>, replies: nat -> nat -> Reply, n: nat, name: string)
    requires n > 0 && AllAccepted(Pass(parts, replies(n - 1)))
    ensures Gain(parts, replies, n, |parts|, name) ==
            Gain(parts, replies, n - 1, |parts|, name) + DeltaSum(Flatten(parts), name)
    ensures forall i: nat :: i < |parts| ==> 1 <= Copies(parts, replies, n, i)
  {
    var last := Pass(parts, replies(n - 1));
    PassShape(parts, replies(n - 1));
    GainByPass(parts, replies, n, |parts|, name);
    FullPassGain(parts, last, |parts|, name);
    assert parts[..|parts|] == parts;
    forall i: nat | i < |parts| ensures 1 <= Copies(parts, replies, n, i) {
      assert last[i].reply.Accepted?;
    }
  }

  /** How a counter stands after a list was sent in several passes, the last one complete. */
  lemma {:induction false} SameTotalIff(s: Store, parts: seq<seq<Metrics>>, replies: nat -> nat -> Reply, n: nat, name: string)
    requires n > 0 && AllAccepted(Pass(parts, replies(n - 1)))
    ensures Wrap(Count(s, name) + Gain(parts, replies, n, |parts|, name)) == Count(ApplyAll(s, Flatten(parts)), name) <==>
            Vanishes(Gain(parts, replies, n - 1, |parts|, name))
  {
    FinalPass(parts, replies, n, name);
    CounterHistory(s, Flatten(parts), name);
    WrapEqualIff(Count(s, name) + Gain(parts, replies, n, |parts|, name), Count(s, name) + DeltaSum(Flatten(parts), name));
  }

  /** `after` has the gauges of `once`, and the same count iff `extra` is a multiple of 2^64. */
  predicate AsOnce(after: Store, once: Store, extra: int, name: string) {
    after.gauges == once.gauges && (Count(after, name) == Count(once, name) <==> Vanishes(extra))
  }

  /** Every part took effect at least once and at most once a pass. */
  predicate EachSent(parts: seq<seq<Metrics>>, replies: nat -> nat -> Reply, n: nat) {
    forall i: nat :: i < |parts| ==> 1 <= Copies(parts, replies, n, i) <= n
  }

  /** After `n` passes of which the last was complete, whichever failed requests took effect. */
  lemma {:induction false} CompletePassIsAsOnce(s: Store, parts: seq<seq<Metrics>>, replies: nat -> nat -> Reply, n: nat, name: string)
    requires n > 0 && AllAccepted(Pass(parts, replies(n - 1)))
    ensures AsOnce(ApplyAll(s, Applied(LogAfter(parts, replies, n))), ApplyAll(s, Flatten(parts)),
                   Gain(parts, replies, n - 1, |parts|, name), name)
    ensures EachSent(parts, replies, n)
  {
    var pre := CompleteLog(parts, replies, n);
    GaugesAbsorbRepeats(s, pre, Flatten(parts));
    CounterGain(s, parts, replies, n, name);
    FinalPass(parts, replies, n, name);
    SameTotalIff(s, parts, replies, n, name);
  }

  /** The same for a list and a total known by other names. */
  lemma {:induction false} ListAsOnce(s: Store, parts: seq<seq<Metrics>>, list: seq<Metrics>, replies: nat -> nat -> Reply, n: nat,
                                      extra: int, name: string)
    requires n > 0 && AllAccepted(Pass(parts, replies(n - 1)))
    requires Flatten(parts) == list && extra == Gain(parts, replies, n - 1, |parts|, name)
    ensures AsOnce(ApplyAll(s, Applied(LogAfter(parts, replies, n))), ApplyAll(s, list), extra, name)
    ensures EachSent(parts, replies, n)
  {
    CompletePassIsAsOnce(s, parts, replies, n, name);
  }

  /** What a send has done when it returns. */
  lemma {:induction false} SendLog(parts: seq<seq<Metrics>>, replies: nat -> nat -> Reply)
    ensures var r := Do(Passes(parts, replies), []);
            && 1 <= r.attempts <= 4
            && r.state == LogAfter(parts, replies, r.attempts)
            && (r.outcome.Ok? ==> AllAccepted(Pass(parts, replies(r.attempts - 1))))
  {
    SendContract(parts, replies);
    DoContract(Passes(parts, replies), []);
  }

  /** On nil, whichever failed requests took effect: every part took effect at least once and at
      most once a pass; gauges are as if the list had been applied once, and so is a counter iff
      what the earlier passes added to it is a multiple of 2^64. */
  lemma {:induction false} SuccessfulSend(s: Store, parts: seq<seq<Metrics>>, replies: nat -> nat -> Reply, name: string)
    requires Do(Passes(parts, replies), []).outcome.Ok?
    ensures var r := Do(Passes(parts, replies), []);
            && 1 <= r.attempts <= 4
            && EachSent(parts, replies, r.attempts)
            && AsOnce(ApplyAll(s, Applied(r.state)), ApplyAll(s, Flatten(parts)),
                      Gain(parts, replies, r.attempts - 1, |parts|, name), name)
  {
    SendLog(parts, replies);
    CompletePassIsAsOnce(s, parts, replies, Do(Passes(parts, replies), []).attempts, name);
  }

  // ---- SendMetrics: one part a metric ----

  lemma {:induction false} FlattenSingles(ms: seq<Metrics>)
    ensures Flatten(Singles(ms)) == ms
  {
    if ms != [] {
      FlattenSingles(ms[..|ms| - 1]);
      assert Singles(ms)[..|ms| - 1] == Singles(ms[..|ms| - 1]);
    }
  }

  function SendSpec(metrics: seq<Metrics>, replies: nat -> nat -> Reply): Result<seq<Exchange>> {
    Do(Passes(Singles(metrics), replies), [])
  }

  /** How many requests for metric `i` took effect in the first `n` passes. */
  function Sent(metrics: seq<Metrics>, replies: nat -> nat -> Reply, n: nat, i: nat): nat {
    Copies(Singles(metrics), replies, n, i)
  }

  /** Each metric's delta for a counter, times its effective requests, summed over the first
      `m` metrics. */
  function Added(metrics: seq<Metrics>, replies: nat -> nat -> Reply, n: nat, m: nat, name: string): int
    requires m <= |metrics|
  {
    if m == 0 then 0
    else Added(metrics, replies, n, m - 1, name) + Sent(metrics, replies, n, m - 1) * DeltaOf(metrics[m - 1], name)
  }

  lemma {:induction false} AddedIsGain(metrics: seq<Metrics>, replies: nat -> nat -> Reply, n: nat, m: nat, name: string)
    requires m <= |metrics|
    ensures Added(metrics, replies, n, m, name) == Gain(Singles(metrics), replies, n, m, name)
  {
    if m > 0 {
      AddedIsGain(metrics, replies, n, m - 1, name);
      var one := [metrics[m - 1]];
      assert one[..0] == [];
      assert DeltaSum(one, name) == DeltaOf(metrics[m - 1], name);
    }
  }

  /** A counter after `n` passes over a list of metrics. */
  lemma {:induction false} MetricsGain(s: Store, metrics: seq<Metrics>, replies: nat -> nat -> Reply, n: nat, name: string)
    ensures Count(ApplyAll(s, Applied(LogAfter(Singles(metrics), replies, n))), name) ==
            Wrap(Count(s, name) + Added(metrics, replies, n, |metrics|, name))
    ensures forall i: nat :: i < |metrics| ==> Sent(metrics, replies, n, i) <= n
  {
    CounterGain(s, Singles(metrics), replies, n, name);
    AddedIsGain(metrics, replies, n, |metrics|, name);
  }

  lemma {:induction false} MetricsAsOnce(s: Store, metrics: seq<Metrics>, replies: nat -> nat -> Reply, n: nat, name: string)
    requires n > 0 && AllAccepted(Pass(Singles(metrics), replies(n - 1)))
    ensures AsOnce(ApplyAll(s, Applied(LogAfter(Singles(metrics), replies, n))), ApplyAll(s, metrics),
                   Added(metrics, replies, n - 1, |metrics|, name), name)
    ensures EachSent(Singles(metrics), replies, n)
  {
    FlattenSingles(metrics);
    AddedIsGain(metrics, replies, n - 1, |metrics|, name);
    ListAsOnce(s, Singles(metrics), metrics, replies, n, Added(metrics, replies, n - 1, |metrics|, name), name);
  }

  /** What `SendMetrics` leaves on a server no one else writes to, whichever failed requests
      took effect. A counter gains each metric's delta once per effective request for it,
      whatever the outcome. On nil every metric took effect once to four times; gauges are as
      if the list had been applied once, and so is a counter iff the earlier passes' effects on
      it sum to a multiple of 2^64. */
  lemma {:induction false} SendMetricsMeaning(s: Store, metrics: seq<Metrics>, replies: nat -> nat -> Reply, name: string)
    ensures var r := SendSpec(metrics, replies);
            var after := ApplyAll(s, Applied(LogAfter(Singles(metrics), replies, r.attempts)));
            && r.state == LogAfter(Singles(metrics), replies, r.attempts)
            && 1 <= r.attempts <= 4
            && Count(after, name) == Wrap(Count(s, name) + Added(metrics, replies, r.attempts, |metrics|, name))
            && (forall i: nat :: i < |metrics| ==> Sent(metrics, replies, r.attempts, i) <= r.attempts)
            && (r.outcome.Ok? ==>
                  && AsOnce(after, ApplyAll(s, metrics), Added(metrics, replies, r.attempts - 1, |metrics|, name), name)
                  && EachSent(Singles(metrics), replies, r.attempts))
  {
    SendLog(Singles(metrics), replies);
    var r := SendSpec(metrics, replies);
    MetricsGain(s, metrics, replies, r.attempts, name);
    if r.outcome.Ok? {
      MetricsAsOnce(s, metrics, replies, r.attempts, name);
    }
  }

  // ---- which failures are retried ----

  /** A pass whose request `i` is the first to fail: the parts before it took effect, and its own
      part iff the server had applied it before the failure. */
  lemma FailedPass(parts: seq<seq<Metrics>>, replies: nat -> Reply, i: nat)
    requires i < |parts| && !replies(i).Accepted? && forall j: nat :: j < i ==> replies(j).Accepted?
    ensures var p := Pass(parts, replies);
            && |p| == i + 1 && p[i] == Exchange(parts[i], replies(i)) && !AllAccepted(p)
            && Applied(p) == Flatten(parts[..i]) + match replies(i)
                                                   case BadStatus(_, applied) => if applied then parts[i] else []
                                                   case NetworkError(_, _, applied) => if applied then parts[i] else []
  {
    AcceptedPrefix(parts, replies, i);
    var before := Pass(parts[..i], replies);
    assert parts[..i + 1][..i] == parts[..i];
    assert Pass(parts[..i + 1], replies) == before + [Exchange(parts[i], replies(i))];
    assert !(before + [Exchange(parts[i], replies(i))])[i].reply.Accepted?;
    PassStops(parts, replies, i + 1);
    assert (before + [Exchange(parts[i], replies(i))])[..i] == before;
    FullPassApplies(before, parts[..i]);
  }

  lemma {:induction false} AcceptedPrefix(parts: seq<seq<Metrics>>, replies: nat -> Reply, i: nat)
    requires i <= |parts| && forall j: nat :: j < i ==> replies(j).Accepted?
    ensures var p := Pass(parts[..i], replies);
            |p| == i && AllAccepted(p) && forall k :: 0 <= k < i ==> p[k].part == parts[k]
  {
    if i > 0 {
      AcceptedPrefix(parts, replies, i - 1);
      assert parts[..i][..i - 1] == parts[..i - 1];
    }
  }

  /** One failing request in the first pass, everything accepted from then on: the list is sent
      again, and nil returned, iff the failure is a timeout or temporary network error. A bad
      status, or any other network error, ends the send after one pass with what it had done. */
  lemma SecondPassIff(parts: seq<seq<Metrics>>, replies: nat -> nat -> Reply, i: nat)
    requires i < |parts| && !replies(0)(i).Accepted? && forall j: nat :: j < i ==> replies(0)(j).Accepted?
    requires forall k: nat, j: nat :: k > 0 ==> replies(k)(j).Accepted?
    ensures var r := Do(Passes(parts, replies), []);
            match replies(0)(i)
            case BadStatus(_, applied) => r.attempts == 1 && r.outcome.Err?
            case NetworkError(timeout, temporary, applied) =>
              if timeout || temporary then r.attempts == 2 && r.outcome.Ok? else r.attempts == 1 && r.outcome.Err?
    ensures var r := Do(Passes(parts, replies), []);
            Applied(r.state) == Applied(Pass(parts, replies(0))) + (if r.attempts == 2 then Flatten(parts) else [])
  {
    FailedPass(parts, replies(0), i);
    SecondPassAccepted(parts, replies(1));
    TwoPasses(parts, replies);
    FailureOutcome(Pass(parts, replies(0)), i);
    AppliedConcat(Pass(parts, replies(0)), Pass(parts, replies(1)));
  }

  lemma FailureOutcome(es: seq<Exchange>, i: nat)
    requires |es| == i + 1 && !es[i].reply.Accepted?
    ensures PassOutcome(es) == Err(es[i].reply.NetworkError? && (es[i].reply.timeout || es[i].reply.temporary))
  {
    assert !AllAccepted(es);
  }

  /** A first pass that fails, followed by one that would not. */
  lemma TwoPasses(parts: seq<seq<Metrics>>, replies: nat -> nat -> Reply)
    requires PassOutcome(Pass(parts, replies(0))).Err? && AllAccepted(Pass(parts, replies(1)))
    ensures Do(Passes(parts, replies), []) ==
            if PassOutcome(Pass(parts, replies(0))).retriable
            then Result(Pass(parts, replies(0)) + Pass(parts, replies(1)), Ok, 2)
            else Result(Pass(parts, replies(0)), PassOutcome(Pass(parts, replies(0))), 1)
  {
    var op, first := Passes(parts, replies), Pass(parts, replies(0));
    assert [] + first == first;
    assert op([], 0) == (first, PassOutcome(first));
    assert op(first, 1) == (first + Pass(parts, replies(1)), Ok);
    assert DoFrom(op, first, 1) == Result(first + Pass(parts, replies(1)), Ok, 2);
  }

  lemma SecondPassAccepted(parts: seq<seq<Metrics>>, replies: nat -> Reply)
    requires forall j: nat :: replies(j).Accepted?
    ensures AllAccepted(Pass(parts, replies)) && Applied(Pass(parts, replies)) == Flatten(parts)
  {
    AcceptedPrefix(parts, replies, |parts|);
    assert parts[..|parts|] == parts;
    FullPassApplies(Pass(parts, replies), parts);
  }

  /** A request that timed out after the server had applied it is sent again. */
  lemma RetriedSendAddsTwice()
    ensures var ms := [CounterMetric("c", 1)];
            var replies := (k: nat) => (i: nat) => if k == 0 then NetworkError(true, false, true) else Accepted;
            && SendSpec(ms, replies).outcome.Ok?
            && Count(ApplyAll(EMPTY, Applied(SendSpec(ms, replies).state)), "c") == 2
            && Count(ApplyAll(EMPTY, ms), "c") == 1
  {
    var m := CounterMetric("c", 1);
    var ms := [m];
    var replies := (k: nat) => (i: nat) => if k == 0 then NetworkError(true, false, true) else Accepted;
    var parts := Singles(ms);
    assert parts == [ms] && parts[..0] == [] && ms[..0] == [];
    assert Pass([], replies(0)) == [] && Pass([], replies(1)) == [];
    assert Pass(parts, replies(0)) == [Exchange(ms, NetworkError(true, false, true))];
    assert Pass(parts, replies(1)) == [Exchange(ms, Accepted)];
    var op := Passes(parts, replies);
    var first := Pass(parts, replies(0));
    assert [] + first == first && !first[0].reply.Accepted?;
    assert op([], 0) == (first, Err(true));
    assert op(first, 1) == (first + Pass(parts, replies(1)), Ok);
    assert DoFrom(op, first, 1) == Result(first + Pass(parts, replies(1)), Ok, 2);
    assert DoFrom(op, [], 0) == DoFrom(op, first, 1);
    SendMetricsMeaning(EMPTY, ms, replies, "c");
    OneMetricTwice(m, replies);
    CounterHistory(EMPTY, ms, "c");
  }

  lemma OneMetricTwice(m: Metrics, replies: nat -> nat -> Reply)
    requires m == CounterMetric("c", 1)
    requires Pass(Singles([m]), replies(0)) == [Exchange([m], NetworkError(true, false, true))]
    requires Pass(Singles([m]), replies(1)) == [Exchange([m], Accepted)]
    ensures Added([m], replies, 2, 1, "c") == 2 && DeltaSum([m], "c") == 1
  {
    assert [m][..0] == [] && GAUGE != COUNTER;
    assert Copies(Singles([m]), replies, 0, 0) == 0;
    assert Copies(Singles([m]), replies, 1, 0) == 1;
    assert Sent([m], replies, 2, 0) == 2;
    assert DeltaOf(m, "c") == 1;
    assert Added([m], replies, 2, 0, "c") == 0;
  }
}
