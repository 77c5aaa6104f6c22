/** pkg/retry/retry.go: the contract of `Do` over an effectful operation. The operation is
    a function of the state it may change and of the attempt number, which stands for
    whatever the environment does to that attempt. Sleeping between attempts is left out. */
module Retry {

  datatype Outcome = Ok | Err(retriable: bool)

  /** Three configured delays, hence four attempts. */
  const DELAYS := [1, 3, 5]
  const LIMIT: nat := |DELAYS| + 1

  datatype Result<S> = Result(state: S, outcome: Outcome, attempts: nat)

  function DoFrom<S>(op: (S, nat) -> (S, Outcome), s: S, i: nat): Result<S>
    requires i < LIMIT
    decreases LIMIT - i
  {
    var (t, o) := op(s, i);
    if o.Err? && o.retriable && i + 1 < LIMIT then DoFrom(op, t, i + 1) else Result(t, o, i + 1)
  }

  function Do<S>(op: (S, nat) -> (S, Outcome), s: S): Result<S> {
    DoFrom(op, s, 0)
  }

  /** The states seen by successive attempts: entry k is the state attempt k starts from. */
  function Seen<S>(op: (S, nat) -> (S, Outcome), s: S, n: nat): S {
    if n == 0 then s else op(Seen(op, s, n - 1), n - 1).0
  }

  lemma {:induction false} DoFromBounds<S>(op: (S, nat) -> (S, Outcome), s: S, i: nat)
    requires i < LIMIT
    ensures var r := DoFrom(op, Seen(op, s, i), i);
            && i < r.attempts <= LIMIT
            && r.state == Seen(op, s, r.attempts)
            && r.outcome == op(Seen(op, s, r.attempts - 1), r.attempts - 1).1
            && (forall k: nat :: i <= k < r.attempts - 1 ==> op(Seen(op, s, k), k).1 == Err(true))
            && (r.outcome == Err(true) ==> r.attempts == LIMIT)
    decreases LIMIT - i
  {
    var t := Seen(op, s, i);
    var (u, o) := op(t, i);
    assert u == Seen(op, s, i + 1);
    if o.Err? && o.retriable && i + 1 < LIMIT {
      DoFromBounds(op, s, i + 1);
    }
  }

  /** At most four attempts, in order; every attempt but the last failed retriably; the last
      one's outcome is returned, and giving up on a retriable error means all four were used. */
  lemma DoContract<S>(op: (S, nat) -> (S, Outcome), s: S)
    ensures var r := Do(op, s);
            && 1 <= r.attempts <= 4
            && r.state == Seen(op, s, r.attempts)
            && r.outcome == op(Seen(op, s, r.attempts - 1), r.attempts - 1).1
            && (forall k: nat :: k < r.attempts - 1 ==> op(Seen(op, s, k), k).1 == Err(true))
            && (r.outcome == Err(true) ==> r.attempts == 4)
  {
    DoFromBounds(op, s, 0);
  }
}
