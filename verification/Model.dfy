/** The wire model shared by the agent, the server and every storage backend:
    int64 arithmetic, float64 values, and the flat `Metrics` record. */
module Model {

  datatype Option<+T> = None | Some(value: T)

  const TWO63 := 0x8000_0000_0000_0000
  const TWO64 := 0x1_0000_0000_0000_0000

  type Int64 = x: int | -0x8000_0000_0000_0000 <= x < 0x8000_0000_0000_0000

  predicate FitsInt64(x: int) {
    -TWO63 <= x < TWO63
  }

  /** Two's-complement wrap-around of an exact integer to int64. */
  function Wrap(x: int): (r: Int64)
    ensures FitsInt64(x) ==> r == x
    decreases if FitsInt64(x) then 0 else if x < 0 then -x else x
  {
    if x >= TWO63 then Wrap(x - TWO64) else if x < -TWO63 then Wrap(x + TWO64) else x
  }

  /** It is the residue modulo 2^64 in the int64 range. */
  lemma {:induction false} WrapCongruent(x: int)
    ensures exists k :: x == Wrap(x) + k * TWO64
    decreases if FitsInt64(x) then 0 else if x < 0 then -x else x
  {
    if x >= TWO63 {
      WrapCongruent(x - TWO64);
      var k :| x - TWO64 == Wrap(x - TWO64) + k * TWO64;
      assert x == Wrap(x) + (k + 1) * TWO64;
    } else if x < -TWO63 {
      WrapCongruent(x + TWO64);
      var k :| x + TWO64 == Wrap(x + TWO64) + k * TWO64;
      assert x == Wrap(x) + (k - 1) * TWO64;
    } else {
      assert x == Wrap(x) + 0 * TWO64;
    }
  }

  lemma MultipleIff(x: int, y: int, k: int)
    requires x == y + k * TWO64 && -TWO64 < y < TWO64
    ensures x % TWO64 == 0 <==> y == 0
  {
    if y < 0 {
      Remainder(x, k - 1, y + TWO64);
    } else {
      Remainder(x, k, y);
    }
  }

  lemma Remainder(x: int, k: int, r: int)
    requires x == k * TWO64 + r && 0 <= r < TWO64
    ensures x % TWO64 == r
  {
  }

  /** A multiple of 2^64: int64 arithmetic does not see it. */
  predicate Vanishes(x: int) {
    x % TWO64 == 0
  }

  /** Two exact totals wrap to the same int64 iff they differ by a multiple of 2^64. */
  lemma WrapEqualIff(a: int, b: int)
    ensures Wrap(a) == Wrap(b) <==> Vanishes(a - b)
  {
    WrapCongruent(a);
    WrapCongruent(b);
    var i :| a == Wrap(a) + i * TWO64;
    var j :| b == Wrap(b) + j * TWO64;
    MultipleIff(a - b, Wrap(a) - Wrap(b), i - j);
  }

  lemma {:induction false} WrapShift(x: int)
    ensures Wrap(x + TWO64) == Wrap(x)
    decreases if x < -TWO63 - TWO64 then -x else 0
  {
    if x + TWO64 < -TWO63 {
      WrapShift(x + TWO64);
    }
  }

  /** Addition may wrap at any point of a sum: only the exact total matters. */
  lemma {:induction false} WrapAdd(a: int, b: int)
    ensures Wrap(Wrap(a) + b) == Wrap(a + b)
    decreases if FitsInt64(a) then 0 else if a < 0 then -a else a
  {
    if a >= TWO63 {
      WrapAdd(a - TWO64, b);
      WrapShift(a - TWO64 + b);
    } else if a < -TWO63 {
      WrapAdd(a + TWO64, b);
      WrapShift(a + b);
    }
  }

  /** float64 as a value: JSON can carry the finite numbers only. */
  datatype Float64 = Finite(number: real) | Infinite(negative: bool) | NaN

  const GAUGE := "gauge"
  const COUNTER := "counter"

  datatype Metrics = Metrics(id: string, mtype: string, delta: Option<Int64>, value: Option<Float64>, hash: string)

  function GaugeMetric(name: string, v: Float64): Metrics {
    Metrics(name, GAUGE, None, Some(v), "")
  }

  function CounterMetric(name: string, d: Int64): Metrics {
    Metrics(name, COUNTER, Some(d), None, "")
  }

  predicate IsGauge(m: Metrics) {
    m.mtype == GAUGE && m.value.Some?
  }

  predicate IsCounter(m: Metrics) {
    m.mtype == COUNTER && m.delta.Some?
  }

  /** A gauge update of `name` that storage will apply. */
  predicate WritesGauge(m: Metrics, name: string) {
    IsGauge(m) && m.id == name
  }

  /** A counter update of `name` that storage will apply. */
  predicate AddsCounter(m: Metrics, name: string) {
    IsCounter(m) && m.id == name
  }

  /** Whether encoding/json can marshal the record. */
  predicate Encodable(m: Metrics) {
    m.value.Some? ==> m.value.value.Finite?
  }

  /** Removing one element of a sequence. */
  function Without<T>(s: seq<T>, i: nat): seq<T>
    requires i < |s|
  {
    s[..i] + s[i + 1..]
  }

  lemma WithoutMultiset<T>(s: seq<T>, i: nat)
    requires i < |s|
    ensures multiset(Without(s, i)) == multiset(s) - multiset{s[i]}
  {
    assert s == s[..i] + [s[i]] + s[i + 1..];
  }
}
