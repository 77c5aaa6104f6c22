/** internal/repository/db.go: the PostgreSQL backend as a table with nullable columns,
    additive upserts, transactions and retries. */
module Database {
  import opened Model
  import opened Storage
  import opened Retry

  /** Nullable columns of a row of `metrics`, whose primary key is (id, mtype). */
  datatype Row = Row(delta: Option<Int64>, value: Option<Float64>)
  type Table = map<(string, string), Row>

  datatype DbError = PgError(code: string) | OtherError

  const NUMERIC_OUT_OF_RANGE := PgError("22003")

  /** The connection-exception class 08 of SQLSTATE. */
  const CONNECTION_CODES := {"08000", "08003", "08006", "08001", "08004", "08007", "08P01"}

  predicate IsRetriable(e: DbError) {
    e.PgError? && e.code in CONNECTION_CODES
  }

  /** An error after which db.go tries again: SQLSTATE of the connection class, one by one. */
  predicate ConnectionException(e: DbError) {
    || e == PgError("08000") || e == PgError("08001") || e == PgError("08003") || e == PgError("08004")
    || e == PgError("08006") || e == PgError("08007") || e == PgError("08P01")
  }

  /** Nothing outside class 08 is one: no other SQLSTATE, and no error without a SQLSTATE. */
  lemma ConnectionClass(e: DbError)
    ensures IsRetriable(e) <==> ConnectionException(e)
    ensures ConnectionException(e) ==> e.PgError? && |e.code| == 5 && e.code[..2] == "08"
  {
  }

  datatype Executed = Done(table: Table) | Failed(error: DbError)

  /** One upsert. NULL + x is NULL, and bigint addition outside int64 is an error, not a wrap. */
  function Upsert(t: Table, m: Metrics): Executed
    requires IsGauge(m) || IsCounter(m)
  {
    var key := (m.id, m.mtype);
    if m.mtype == GAUGE then
      Done(t[key := Row(if key in t then t[key].delta else None, Some(m.value.value))])
    else if key !in t then
      Done(t[key := Row(Some(m.delta.value), None)])
    else if t[key].delta.None? then
      Done(t)
    else if FitsInt64(t[key].delta.value + m.delta.value) then
      Done(t[key := Row(Some(t[key].delta.value + m.delta.value), t[key].value)])
    else
      Failed(NUMERIC_OUT_OF_RANGE)
  }

  /** The statements of a batch, run on a table; entries without their value are skipped. */
  function ExecAll(t: Table, ms: seq<Metrics>): Executed {
    if ms == [] then Done(t)
    else
      var r := ExecAll(t, ms[..|ms| - 1]);
      var m := ms[|ms| - 1];
      if r.Failed? || !(IsGauge(m) || IsCounter(m)) then r else Upsert(r.table, m)
  }

  function Select(t: Table, name: string, mtype: string): Option<Metrics> {
    if (name, mtype) in t then Some(Metrics(name, mtype, t[(name, mtype)].delta, t[(name, mtype)].value, "")) else None
  }

  // ---- refinement of the memory backend ----

  /** Gauge rows have a null delta, counter rows a non-null delta and a null value. */
  predicate RowOk(key: (string, string), row: Row) {
    || (key.1 == GAUGE && row.delta.None? && row.value.Some?)
    || (key.1 == COUNTER && row.delta.Some? && row.value.None?)
  }

  ghost predicate TableOk(t: Table) {
    forall key :: key in t ==> RowOk(key, t[key])
  }

  ghost predicate Agrees(t: Table, s: Store) {
    && TableOk(t)
    && (forall name :: (name, GAUGE) in t <==> name in s.gauges)
    && (forall name :: (name, COUNTER) in t <==> name in s.counters)
    && (forall name :: name in s.gauges ==> t[(name, GAUGE)].value == Some(s.gauges[name]))
    && (forall name :: name in s.counters ==> t[(name, COUNTER)].delta == Some(s.counters[name]))
  }

  /** Agreement is what a reader sees: `GetMetric` of both backends, for every type and name. */
  lemma LookupsAgree(t: Table, s: Store, name: string, mtype: string)
    requires Agrees(t, s)
    ensures Select(t, name, mtype) == Lookup(s, name, mtype)
  {
    if (name, mtype) in t {
      assert RowOk((name, mtype), t[(name, mtype)]);
    }
  }

  lemma GaugeUpsertRefines(t: Table, s: Store, m: Metrics)
    requires Agrees(t, s) && IsGauge(m)
    ensures Upsert(t, m).Done? && Agrees(Upsert(t, m).table, Apply(s, m))
  {
    var key := (m.id, GAUGE);
    assert GAUGE != COUNTER;
    assert key in t ==> RowOk(key, t[key]);
    assert Upsert(t, m) == Done(t[key := Row(None, Some(m.value.value))]);
  }

  lemma CounterUpsertRefines(t: Table, s: Store, m: Metrics)
    requires Agrees(t, s) && IsCounter(m)
    ensures Upsert(t, m).Done? <==> FitsInt64(Count(s, m.id) + m.delta.value)
    ensures Upsert(t, m).Done? ==> Agrees(Upsert(t, m).table, Apply(s, m))
  {
    var key := (m.id, COUNTER);
    assert GAUGE != COUNTER;
    assert key in t ==> RowOk(key, t[key]);
    var sum := Count(s, m.id) + m.delta.value;
    if FitsInt64(sum) {
      assert Upsert(t, m) == Done(t[key := Row(Some(sum), None)]);
      assert Apply(s, m) == s.(counters := s.counters[m.id := sum]);
    }
  }

  /** Every counter total of the history fits int64. */
  ghost predicate Bounded(s: Store, ms: seq<Metrics>) {
    forall name :: FitsInt64(Count(s, name) + DeltaSum(ms, name))
  }

  /** No running counter total leaves int64: checkable from the stored counters and the batch. */
  ghost predicate NoOverflow(s: Store, ms: seq<Metrics>) {
    forall k :: 0 <= k <= |ms| ==> Bounded(s, ms[..k])
  }

  lemma NoOverflowSnoc(s: Store, ms: seq<Metrics>)
    requires ms != []
    ensures NoOverflow(s, ms) <==> NoOverflow(s, ms[..|ms| - 1]) && Bounded(s, ms)
  {
    var front := ms[..|ms| - 1];
    assert ms[..|ms|] == ms;
    forall k | 0 <= k <= |front| ensures front[..k] == ms[..k] {
    }
  }

  lemma ExactCount(s: Store, ms: seq<Metrics>, name: string)
    requires Bounded(s, ms)
    ensures Count(ApplyAll(s, ms), name) == Count(s, name) + DeltaSum(ms, name)
  {
    CounterHistory(s, ms, name);
  }

  lemma BoundedLast(s: Store, ms: seq<Metrics>)
    requires ms != [] && Bounded(s, ms[..|ms| - 1])
    ensures var front, m := ms[..|ms| - 1], ms[|ms| - 1];
            Bounded(s, ms) <==> (IsCounter(m) ==> FitsInt64(Count(ApplyAll(s, front), m.id) + m.delta.value))
  {
    var front, m := ms[..|ms| - 1], ms[|ms| - 1];
    ExactCount(s, front, m.id);
    forall name | DeltaOf(m, name) == 0 ensures DeltaSum(ms, name) == DeltaSum(front, name) {
    }
    assert DeltaSum(ms, m.id) == DeltaSum(front, m.id) + DeltaOf(m, m.id);
    if IsCounter(m) ==> FitsInt64(Count(ApplyAll(s, front), m.id) + m.delta.value) {
      forall name ensures FitsInt64(Count(s, name) + DeltaSum(ms, name)) {
        if DeltaOf(m, name) == 0 {
          assert FitsInt64(Count(s, name) + DeltaSum(front, name));
        } else {
          assert name == m.id;
        }
      }
    }
  }

  /** The statements succeed iff no running total overflows, and then the table means exactly
      what the memory store means after the same history: no sum has wrapped. */
  lemma {:induction false} ExecAllRefines(t: Table, s: Store, ms: seq<Metrics>)
    requires Agrees(t, s)
    ensures ExecAll(t, ms).Done? <==> NoOverflow(s, ms)
    ensures ExecAll(t, ms).Done? ==> Agrees(ExecAll(t, ms).table, ApplyAll(s, ms))
  {
    if ms == [] {
      assert ms[..0] == [];
      assert Bounded(s, []);
    } else {
      var front, m := ms[..|ms| - 1], ms[|ms| - 1];
      ExecAllRefines(t, s, front);
      NoOverflowSnoc(s, ms);
      if NoOverflow(s, front) {
        assert front[..|front|] == front;
        BoundedLast(s, ms);
        if IsGauge(m) {
          GaugeUpsertRefines(ExecAll(t, front).table, ApplyAll(s, front), m);
        } else if IsCounter(m) {
          CounterUpsertRefines(ExecAll(t, front).table, ApplyAll(s, front), m);
        }
      }
    }
  }

  /** The backends differ exactly on overflow: memory wraps where the database refuses. */
  lemma OverflowSeparatesBackends()
    ensures var big := CounterMetric("c", 0x7fff_ffff_ffff_ffff);
            var ms := [big] + [CounterMetric("c", 1)];
            && Agrees(map[], EMPTY)
            && ExecAll(map[], ms).Failed?
            && Count(ApplyAll(EMPTY, ms), "c") == -0x8000_0000_0000_0000
  {
    var big := CounterMetric("c", 0x7fff_ffff_ffff_ffff);
    var one := CounterMetric("c", 1);
    assert ([big] + [one])[..1] == [big] && [big][..0] == [];
    assert GAUGE != COUNTER;
    assert ApplyAll(EMPTY, [big]) == Apply(EMPTY, big);
    assert Count(Apply(EMPTY, big), "c") == 0x7fff_ffff_ffff_ffff;
    assert ExecAll(map[], [big]) == Done(map[("c", COUNTER) := Row(Some(0x7fff_ffff_ffff_ffff), None)]);
  }

  // ---- transactions and retries under fault schedules ----

  /** What the environment does to one attempt. A commit that reports an error normally left
      nothing behind; `applied` is the case where the server had committed before the
      connection broke. */
  datatype Fault =
    | NoFault
    | AtBegin(error: DbError)
    | AtExec(k: nat, error: DbError)
    | AtCommit(error: DbError, applied: bool)

  function Raised(e: DbError): Outcome {
    Err(IsRetriable(e))
  }

  /** The statement loop of a transaction, with a possible fault at one of its statements. */
  function TxLoop(t: Table, ms: seq<Metrics>, f: Fault): Executed {
    if ms == [] then Done(t)
    else
      var r := TxLoop(t, ms[..|ms| - 1], f);
      var m := ms[|ms| - 1];
      if r.Failed? || !(IsGauge(m) || IsCounter(m)) then r
      else if f.AtExec? && f.k == |ms| - 1 then Failed(f.error)
      else Upsert(r.table, m)
  }

  /** One attempt: anything but a commit that took effect leaves the table alone. */
  function Attempt(t: Table, ms: seq<Metrics>, f: Fault): (Table, Outcome) {
    if f.AtBegin? then (t, Raised(f.error))
    else match TxLoop(t, ms, f)
      case Failed(e) => (t, Raised(e))
      case Done(u) =>
        if f.AtCommit? then (if f.applied then u else t, Raised(f.error)) else (u, Ok)
  }

  function Attempts(ms: seq<Metrics>, faults: nat -> Fault): (Table, nat) -> (Table, Outcome) {
    (t: Table, i: nat) => Attempt(t, ms, faults(i))
  }

  function UpdateSpec(t: Table, ms: seq<Metrics>, faults: nat -> Fault): Result<Table> {
    Do(Attempts(ms, faults), t)
  }

  /** A statement outside a transaction may fail before or after it took effect. */
  datatype ExecFault = Fine | Lost(error: DbError, applied: bool)

  function ExecOnce(t: Table, m: Metrics, f: ExecFault): (Table, Outcome)
    requires IsGauge(m) || IsCounter(m)
  {
    if f.Lost? && !f.applied then (t, Raised(f.error))
    else match Upsert(t, m)
      case Failed(e) => (t, Raised(e))
      case Done(u) => (u, if f.Lost? then Raised(f.error) else Ok)
  }

  function Statements(m: Metrics, faults: nat -> ExecFault): (Table, nat) -> (Table, Outcome)
    requires IsGauge(m) || IsCounter(m)
  {
    (t: Table, i: nat) => ExecOnce(t, m, faults(i))
  }

  function StatementSpec(t: Table, m: Metrics, faults: nat -> ExecFault): Result<Table>
    requires IsGauge(m) || IsCounter(m)
  {
    Do(Statements(m, faults), t)
  }

  function AsTransaction(f: ExecFault): Fault {
    match f
    case Fine => NoFault
    case Lost(e, applied) => if applied then AtCommit(e, true) else AtBegin(e)
  }

  lemma StatementIsAttempt(t: Table, m: Metrics, f: ExecFault)
    requires IsGauge(m) || IsCounter(m)
    ensures ExecOnce(t, m, f) == Attempt(t, [m], AsTransaction(f))
  {
    assert [m][..0] == [];
    assert TxLoop(t, [], AsTransaction(f)) == Done(t);
    assert TxLoop(t, [m], AsTransaction(f)) == Upsert(t, m);
  }

  lemma {:induction false} StatementsAreAttempts(t: Table, m: Metrics, faults: nat -> ExecFault, i: nat)
    requires (IsGauge(m) || IsCounter(m)) && i < LIMIT
    ensures DoFrom(Statements(m, faults), t, i) == DoFrom(Attempts([m], (k: nat) => AsTransaction(faults(k))), t, i)
    decreases LIMIT - i
  {
    StatementIsAttempt(t, m, faults(i));
    var (u, o) := ExecOnce(t, m, faults(i));
    if o == Err(true) && i + 1 < LIMIT {
      StatementsAreAttempts(u, m, faults, i + 1);
    }
  }

  /** So the single updates are batches of one entry, whatever befalls them. */
  lemma SingleIsBatch(t: Table, m: Metrics, faults: nat -> ExecFault)
    requires IsGauge(m) || IsCounter(m)
    ensures StatementSpec(t, m, faults) == UpdateSpec(t, [m], (k: nat) => AsTransaction(faults(k)))
  {
    StatementsAreAttempts(t, m, faults, 0);
  }

  class DBStorage {
    var table: Table

    constructor ()
      ensures table == map[]
    {
      table := map[];
    }

    method RunTransaction(metrics: seq<Metrics>, fault: Fault) returns (o: Outcome)
      modifies this
      ensures (table, o) == Attempt(old(table), metrics, fault)
    {
      if fault.AtBegin? { return Raised(fault.error); }
      var tx := table;
      for i := 0 to |metrics|
        invariant TxLoop(table, metrics[..i], fault) == Done(tx)
        invariant table == old(table)
      {
        var m := metrics[i];
        assert metrics[..i + 1][..i] == metrics[..i];
        if IsGauge(m) || IsCounter(m) {
          var e := if fault.AtExec? && fault.k == i then Failed(fault.error) else Upsert(tx, m);
          assert TxLoop(table, metrics[..i + 1], fault) == e;
          if e.Failed? {
            TxLoopStops(table, metrics, fault, i + 1);
            return Raised(e.error);
          }
          tx := e.table;
        }
      }
      assert metrics[..|metrics|] == metrics;
      if fault.AtCommit? {
        if fault.applied { table := tx; }
        return Raised(fault.error);
      }
      table := tx;
      return Ok;
    }

    method UpdateBatch(metrics: seq<Metrics>, faults: nat -> Fault) returns (o: Outcome, attempts: nat)
      modifies this
      ensures Result(table, o, attempts) == UpdateSpec(old(table), metrics, faults)
    {
      attempts := 0;
      o := Err(true);
      while o == Err(true) && attempts < LIMIT
        invariant attempts <= LIMIT
        invariant attempts == 0 ==> o == Err(true)
        invariant if o == Err(true) && attempts < LIMIT
                  then DoFrom(Attempts(metrics, faults), table, attempts) == UpdateSpec(old(table), metrics, faults)
                  else Result(table, o, attempts) == UpdateSpec(old(table), metrics, faults)
        decreases LIMIT - attempts
      {
        o := RunTransaction(metrics, faults(attempts));
        attempts := attempts + 1;
      }
    }

    /** One attempt at a statement outside a transaction. */
    method ExecStatement(m: Metrics, fault: ExecFault) returns (o: Outcome)
      requires IsGauge(m) || IsCounter(m)
      modifies this
      ensures (table, o) == ExecOnce(old(table), m, fault)
    {
      if fault.Lost? && !fault.applied { return Raised(fault.error); }
      var e := Upsert(table, m);
      if e.Failed? { return Raised(e.error); }
      table := e.table;
      return if fault.Lost? then Raised(fault.error) else Ok;
    }

    method UpdateRow(m: Metrics, faults: nat -> ExecFault) returns (o: Outcome, attempts: nat)
      requires IsGauge(m) || IsCounter(m)
      modifies this
      ensures Result(table, o, attempts) == StatementSpec(old(table), m, faults)
    {
      attempts := 0;
      o := Err(true);
      while o == Err(true) && attempts < LIMIT
        invariant attempts <= LIMIT
        invariant attempts == 0 ==> o == Err(true)
        invariant if o == Err(true) && attempts < LIMIT
                  then DoFrom(Statements(m, faults), table, attempts) == StatementSpec(old(table), m, faults)
                  else Result(table, o, attempts) == StatementSpec(old(table), m, faults)
        decreases LIMIT - attempts
      {
        o := ExecStatement(m, faults(attempts));
        attempts := attempts + 1;
      }
    }

    method UpdateGauge(name: string, value: Float64, faults: nat -> ExecFault) returns (o: Outcome, attempts: nat)
      modifies this
      ensures Result(table, o, attempts) == StatementSpec(old(table), GaugeMetric(name, value), faults)
    {
      o, attempts := UpdateRow(GaugeMetric(name, value), faults);
    }

    method UpdateCounter(name: string, value: Int64, faults: nat -> ExecFault) returns (o: Outcome, attempts: nat)
      modifies this
      ensures Result(table, o, attempts) == StatementSpec(old(table), CounterMetric(name, value), faults)
    {
      o, attempts := UpdateRow(CounterMetric(name, value), faults);
    }

    /** A read whose attempt `i` fails with `failures(i)`, if any. A read given up on looks like
        an absent metric. */
    method GetMetric(name: string, mtype: string, failures: nat -> Option<DbError>) returns (r: Option<Metrics>)
      ensures r == if ReadSucceeds(failures) then Select(table, name, mtype) else None
    {
      r := None;
      var attempts := 0;
      while attempts < LIMIT
        invariant attempts <= LIMIT && r == None
        invariant forall k: nat :: k < attempts ==> failures(k).Some? && ConnectionException(failures(k).value)
        decreases LIMIT - attempts
      {
        match failures(attempts)
        case None =>
          assert ReadsAt(failures, attempts);
          return if (name, mtype) !in table then None
                 else Some(Metrics(name, mtype, table[(name, mtype)].delta, table[(name, mtype)].value, ""));
        case Some(e) =>
          ConnectionClass(e);
          if !IsRetriable(e) { return None; }
          attempts := attempts + 1;
      }
    }
  }

  /** Attempt `k` is made and succeeds. */
  ghost predicate ReadsAt(failures: nat -> Option<DbError>, k: nat) {
    && failures(k).None?
    && forall j: nat :: j < k ==> failures(j).Some? && ConnectionException(failures(j).value)
  }

  ghost predicate ReadSucceeds(failures: nat -> Option<DbError>) {
    exists k: nat :: k < LIMIT && ReadsAt(failures, k)
  }

  lemma {:induction false} TxLoopStops(t: Table, ms: seq<Metrics>, f: Fault, k: nat)
    requires k <= |ms| && TxLoop(t, ms[..k], f).Failed?
    ensures TxLoop(t, ms, f) == TxLoop(t, ms[..k], f)
    decreases |ms| - k
  {
    if k == |ms| {
      assert ms[..k] == ms;
    } else {
      assert ms[..k + 1][..k] == ms[..k];
      TxLoopStops(t, ms, f, k + 1);
    }
  }

  lemma {:induction false} TxLoopIsExecAll(t: Table, ms: seq<Metrics>, f: Fault)
    ensures TxLoop(t, ms, f).Done? ==> TxLoop(t, ms, f) == ExecAll(t, ms)
  {
    if ms != [] {
      TxLoopIsExecAll(t, ms[..|ms| - 1], f);
    }
  }

  /** `k` copies of a batch. */
  function Copies(ms: seq<Metrics>, k: nat): seq<Metrics> {
    if k == 0 then [] else Copies(ms, k - 1) + ms
  }

  lemma {:induction false} ExecAllConcat(t: Table, a: seq<Metrics>, b: seq<Metrics>)
    requires ExecAll(t, a).Done?
    ensures ExecAll(t, a + b) == ExecAll(ExecAll(t, a).table, b)
  {
    if b == [] {
      assert a + b == a;
    } else {
      ExecAllConcat(t, a, b[..|b| - 1]);
      assert (a + b)[..|a + b| - 1] == a + b[..|b| - 1];
    }
  }

  /** Whether an attempt starting from `t` committed. */
  predicate Committed(t: Table, ms: seq<Metrics>, f: Fault) {
    Attempt(t, ms, f).1.Ok? || (f.AtCommit? && f.applied && TxLoop(t, ms, f).Done?)
  }

  function Commits(t: Table, ms: seq<Metrics>, faults: nat -> Fault, n: nat): nat {
    if n == 0 then 0
    else Commits(t, ms, faults, n - 1)
         + (if Committed(Seen(Attempts(ms, faults), t, n - 1), ms, faults(n - 1)) then 1 else 0)
  }

  lemma AttemptIsCopy(u: Table, ms: seq<Metrics>, f: Fault)
    ensures if Committed(u, ms, f) then ExecAll(u, ms) == Done(Attempt(u, ms, f).0) else Attempt(u, ms, f).0 == u
  {
    TxLoopIsExecAll(u, ms, f);
  }

  lemma CopyStep(t: Table, ms: seq<Metrics>, k: nat, u: Table, f: Fault)
    requires ExecAll(t, Copies(ms, k)) == Done(u)
    ensures ExecAll(t, Copies(ms, if Committed(u, ms, f) then k + 1 else k)) == Done(Attempt(u, ms, f).0)
  {
    AttemptIsCopy(u, ms, f);
    ExecAllConcat(t, Copies(ms, k), ms);
  }

  lemma {:induction false} SeenCopyStep(t: Table, ms: seq<Metrics>, faults: nat -> Fault, n: nat, u: Table)
    requires n > 0 && u == Seen(Attempts(ms, faults), t, n - 1)
    requires ExecAll(t, Copies(ms, Commits(t, ms, faults, n - 1))) == Done(u)
    ensures Commits(t, ms, faults, n) <= Commits(t, ms, faults, n - 1) + 1
    ensures ExecAll(t, Copies(ms, Commits(t, ms, faults, n))) == Done(Seen(Attempts(ms, faults), t, n))
  {
    CopyStep(t, ms, Commits(t, ms, faults, n - 1), u, faults(n - 1));
    assert Seen(Attempts(ms, faults), t, n) == Attempt(u, ms, faults(n - 1)).0;
  }

  lemma {:induction false} SeenIsCopies(t: Table, ms: seq<Metrics>, faults: nat -> Fault, n: nat)
    ensures Commits(t, ms, faults, n) <= n
    ensures ExecAll(t, Copies(ms, Commits(t, ms, faults, n))) == Done(Seen(Attempts(ms, faults), t, n))
  {
    if n > 0 {
      SeenIsCopies(t, ms, faults, n - 1);
      SeenCopyStep(t, ms, faults, n, Seen(Attempts(ms, faults), t, n - 1));
    }
  }

  /** For every fault schedule: at most four attempts, each but the last ended by a connection
      error, and the table holds one whole copy of the batch per commit that took effect. */
  lemma BatchIsAtomic(t: Table, ms: seq<Metrics>, faults: nat -> Fault)
    ensures var r := UpdateSpec(t, ms, faults);
            && 1 <= r.attempts <= 4
            && (forall k: nat :: k < r.attempts - 1 ==>
                  Attempt(Seen(Attempts(ms, faults), t, k), ms, faults(k)).1 == Err(true))
            && Commits(t, ms, faults, r.attempts) <= r.attempts
            && ExecAll(t, Copies(ms, Commits(t, ms, faults, r.attempts))) == Done(r.state)
  {
    var op := Attempts(ms, faults);
    DoContract(op, t);
    SeenIsCopies(t, ms, faults, Do(op, t).attempts);
    forall k: nat | k < Do(op, t).attempts - 1
      ensures Attempt(Seen(op, t, k), ms, faults(k)).1 == Err(true)
    {
      assert op(Seen(op, t, k), k).1 == Err(true);
    }
  }

  /** A commit that took effect and was reported as failed. */
  predicate LostCommit(t: Table, ms: seq<Metrics>, f: Fault) {
    f.AtCommit? && f.applied && TxLoop(t, ms, f).Done?
  }

  /** Attempt `k` of a schedule, from the state it starts in. */
  predicate LosesAt(t: Table, ms: seq<Metrics>, faults: nat -> Fault, k: nat) {
    LostCommit(Seen(Attempts(ms, faults), t, k), ms, faults(k))
  }

  /** No attempt that is made ends in one. */
  ghost predicate NoLostCommit(t: Table, ms: seq<Metrics>, faults: nat -> Fault) {
    forall k: nat :: k < UpdateSpec(t, ms, faults).attempts ==> !LosesAt(t, ms, faults, k)
  }

  lemma FailedCommitted(u: Table, ms: seq<Metrics>, f: Fault)
    requires Attempt(u, ms, f).1.Err?
    ensures Committed(u, ms, f) <==> LostCommit(u, ms, f)
  {
  }

  predicate RetriesAt(t: Table, ms: seq<Metrics>, faults: nat -> Fault, k: nat) {
    Attempt(Seen(Attempts(ms, faults), t, k), ms, faults(k)).1 == Err(true)
  }

  lemma CommitsStep(t: Table, ms: seq<Metrics>, faults: nat -> Fault, k: nat)
    ensures Attempt(Seen(Attempts(ms, faults), t, k), ms, faults(k)).1.Err? ==>
              Commits(t, ms, faults, k + 1) == Commits(t, ms, faults, k) + (if LosesAt(t, ms, faults, k) then 1 else 0)
    ensures Attempt(Seen(Attempts(ms, faults), t, k), ms, faults(k)).1.Ok? ==>
              Commits(t, ms, faults, k + 1) == Commits(t, ms, faults, k) + 1 && !LosesAt(t, ms, faults, k)
  {
    var u := Seen(Attempts(ms, faults), t, k);
    if Attempt(u, ms, faults(k)).1.Err? {
      FailedCommitted(u, ms, faults(k));
    }
  }

  lemma {:induction false} EarlyCommits(t: Table, ms: seq<Metrics>, faults: nat -> Fault, n: nat)
    requires forall k: nat :: k < n ==> RetriesAt(t, ms, faults, k)
    ensures Commits(t, ms, faults, n) == 0 <==> forall k: nat :: k < n ==> !LosesAt(t, ms, faults, k)
  {
    if n > 0 {
      EarlyCommits(t, ms, faults, n - 1);
      assert RetriesAt(t, ms, faults, n - 1);
      CommitsStep(t, ms, faults, n - 1);
    }
  }

  /** All attempts but the last are retried; the last one gives the outcome. */
  lemma AttemptsMade(t: Table, ms: seq<Metrics>, faults: nat -> Fault)
    ensures var r := UpdateSpec(t, ms, faults);
            && 1 <= r.attempts <= 4
            && (forall k: nat :: k < r.attempts - 1 ==> RetriesAt(t, ms, faults, k))
            && r.outcome == Attempt(Seen(Attempts(ms, faults), t, r.attempts - 1), ms, faults(r.attempts - 1)).1
            && (r.outcome == Err(true) ==> r.attempts == 4)
  {
    var op := Attempts(ms, faults);
    DoContract(op, t);
    forall k: nat | k < Do(op, t).attempts - 1 ensures RetriesAt(t, ms, faults, k) {
      assert op(Seen(op, t, k), k).1 == Err(true);
    }
  }

  // ---- only connection errors cause another attempt ----

  /** What one attempt of the closure returns. */
  function ErrorOf(t: Table, ms: seq<Metrics>, f: Fault): Option<DbError> {
    if f.AtBegin? then Some(f.error)
    else match TxLoop(t, ms, f)
      case Failed(e) => Some(e)
      case Done(_) => if f.AtCommit? then Some(f.error) else None
  }

  function ErrorAt(t: Table, ms: seq<Metrics>, faults: nat -> Fault, k: nat): Option<DbError> {
    ErrorOf(Seen(Attempts(ms, faults), t, k), ms, faults(k))
  }

  lemma AttemptOutcome(t: Table, ms: seq<Metrics>, f: Fault)
    ensures Attempt(t, ms, f).1 == match ErrorOf(t, ms, f)
                                   case None => Ok
                                   case Some(e) => Err(ConnectionException(e))
  {
    match ErrorOf(t, ms, f)
    case None =>
    case Some(e) => ConnectionClass(e);
  }

  /** For every schedule: another attempt follows exactly those among the first three that
      returned a connection-class error; nil is returned iff the last one succeeded. */
  lemma RetriedOnConnectionErrorsOnly(t: Table, ms: seq<Metrics>, faults: nat -> Fault)
    ensures var r := UpdateSpec(t, ms, faults);
            var last := ErrorAt(t, ms, faults, r.attempts - 1);
            && 1 <= r.attempts <= 4
            && (forall k: nat :: k < r.attempts - 1 ==>
                  ErrorAt(t, ms, faults, k).Some? && ConnectionException(ErrorAt(t, ms, faults, k).value))
            && (r.outcome.Ok? <==> last.None?)
            && (last.Some? && ConnectionException(last.value) ==> r.attempts == 4)
  {
    AttemptsMade(t, ms, faults);
    var r := UpdateSpec(t, ms, faults);
    forall k: nat | k < r.attempts
      ensures Attempt(Seen(Attempts(ms, faults), t, k), ms, faults(k)).1 ==
              match ErrorAt(t, ms, faults, k)
              case None => Ok
              case Some(e) => Err(ConnectionException(e))
    {
      AttemptOutcome(Seen(Attempts(ms, faults), t, k), ms, faults(k));
    }
    forall k: nat | k < r.attempts - 1
      ensures ErrorAt(t, ms, faults, k).Some? && ConnectionException(ErrorAt(t, ms, faults, k).value)
    {
      assert RetriesAt(t, ms, faults, k);
    }
  }

  /** A fault that is met: at the begin, at a statement the loop gets to, at a commit it gets to. */
  predicate Strikes(t: Table, ms: seq<Metrics>, f: Fault) {
    match f
    case NoFault => false
    case AtBegin(_) => true
    case AtExec(k, _) => k < |ms| && (IsGauge(ms[k]) || IsCounter(ms[k])) && ExecAll(t, ms[..k]).Done?
    case AtCommit(_, _) => ExecAll(t, ms).Done?
  }

  lemma {:induction false} LoopBefore(t: Table, ms: seq<Metrics>, f: Fault)
    requires f.AtExec? ==> |ms| <= f.k
    ensures TxLoop(t, ms, f) == ExecAll(t, ms)
  {
    if ms != [] {
      LoopBefore(t, ms[..|ms| - 1], f);
    }
  }

  lemma StruckAttempt(t: Table, ms: seq<Metrics>, f: Fault)
    requires Strikes(t, ms, f)
    ensures ErrorOf(t, ms, f) == Some(f.error)
  {
    if f.AtExec? {
      LoopBefore(t, ms[..f.k], f);
      assert ms[..f.k + 1][..f.k] == ms[..f.k];
      assert TxLoop(t, ms[..f.k + 1], f) == Failed(f.error);
      TxLoopStops(t, ms, f, f.k + 1);
    } else {
      LoopBefore(t, ms, f);
    }
  }

  /** One fault at the begin, at any statement or at the commit, and none after it: a second
      attempt is made for the seven connection codes and for no other error. */
  lemma SecondAttemptIff(t: Table, ms: seq<Metrics>, faults: nat -> Fault)
    requires Strikes(t, ms, faults(0)) && forall k: nat :: k > 0 ==> faults(k) == NoFault
    ensures var r := UpdateSpec(t, ms, faults);
            && r.attempts == (if ConnectionException(faults(0).error) then 2 else 1)
            && (r.attempts == 1 ==> r.outcome.Err?)
  {
    RetriedOnConnectionErrorsOnly(t, ms, faults);
    assert Seen(Attempts(ms, faults), t, 0) == t;
    StruckAttempt(t, ms, faults(0));
    var r := UpdateSpec(t, ms, faults);
    if r.attempts > 2 {
      TxLoopError(Seen(Attempts(ms, faults), t, 1), ms, NoFault);
      assert ErrorAt(t, ms, faults, 1).Some?;
      ConnectionClass(NUMERIC_OUT_OF_RANGE);
      assert false;
    }
    if r.attempts == 2 {
      assert ErrorAt(t, ms, faults, 0).Some?;
    }
  }

  /** The same for reads: one failure, none after it. */
  lemma SecondReadIff(failures: nat -> Option<DbError>)
    requires failures(0).Some? && forall k: nat :: k > 0 ==> failures(k).None?
    ensures ReadSucceeds(failures) <==> ConnectionException(failures(0).value)
  {
    if ConnectionException(failures(0).value) {
      assert ReadsAt(failures, 1);
    }
  }

  /** The batch is committed once on nil and never on an error, for every schedule, iff no
      attempt made ends in a lost commit. */
  lemma CommittedOnceIff(t: Table, ms: seq<Metrics>, faults: nat -> Fault)
    ensures var r := UpdateSpec(t, ms, faults);
            Commits(t, ms, faults, r.attempts) == (if r.outcome.Ok? then 1 else 0) <==> NoLostCommit(t, ms, faults)
  {
    AttemptsMade(t, ms, faults);
    var n := UpdateSpec(t, ms, faults).attempts;
    EarlyCommits(t, ms, faults, n - 1);
    CommitsStep(t, ms, faults, n - 1);
  }

  /** nil and applied exactly once, or an error and the table unchanged. */
  predicate OnceOrNotAtAll(t: Table, ms: seq<Metrics>, faults: nat -> Fault) {
    var r := UpdateSpec(t, ms, faults);
    && (r.outcome.Ok? ==> ExecAll(t, ms) == Done(r.state))
    && (r.outcome.Err? ==> r.state == t)
  }

  lemma BatchExactlyOnceOrNotAtAll(t: Table, ms: seq<Metrics>, faults: nat -> Fault)
    requires NoLostCommit(t, ms, faults)
    ensures OnceOrNotAtAll(t, ms, faults)
  {
    BatchIsAtomic(t, ms, faults);
    CommittedOnceIff(t, ms, faults);
    assert Copies(ms, 0) == [] && Copies(ms, 1) == [] + ms == ms;
  }

  // ---- which fault schedules keep the promise for every table and batch ----

  /** A fault after which another attempt is made, when the batch gets that far. */
  predicate Retried(f: Fault) {
    match f
    case NoFault => false
    case AtBegin(e) => ConnectionException(e)
    case AtExec(_, e) => ConnectionException(e)
    case AtCommit(e, _) => ConnectionException(e)
  }

  predicate MayLoseAt(faults: nat -> Fault, i: nat) {
    faults(i).AtCommit? && faults(i).applied && forall k: nat :: k < i ==> Retried(faults(k))
  }

  /** No attempt that can be made loses a commit. */
  predicate HonestSchedule(faults: nat -> Fault) {
    forall i: nat :: i < 4 ==> !MayLoseAt(faults, i)
  }

  lemma {:induction false} TxLoopError(t: Table, ms: seq<Metrics>, f: Fault)
    ensures TxLoop(t, ms, f).Failed? ==>
              TxLoop(t, ms, f).error == NUMERIC_OUT_OF_RANGE || (f.AtExec? && TxLoop(t, ms, f).error == f.error)
  {
    if ms != [] {
      TxLoopError(t, ms[..|ms| - 1], f);
    }
  }

  lemma RetriedAttempt(t: Table, ms: seq<Metrics>, f: Fault)
    requires Attempt(t, ms, f).1 == Err(true)
    ensures Retried(f)
  {
    TxLoopError(t, ms, f);
    ConnectionClass(NUMERIC_OUT_OF_RANGE);
    if !f.NoFault? {
      ConnectionClass(f.error);
    }
  }

  lemma HonestScheduleSuffices(t: Table, ms: seq<Metrics>, faults: nat -> Fault)
    requires HonestSchedule(faults)
    ensures NoLostCommit(t, ms, faults)
  {
    AttemptsMade(t, ms, faults);
    var n := UpdateSpec(t, ms, faults).attempts;
    forall k: nat | k < n ensures !LosesAt(t, ms, faults, k) {
      forall j: nat | j < k ensures Retried(faults(j)) {
        assert RetriesAt(t, ms, faults, j);
        RetriedAttempt(Seen(Attempts(ms, faults), t, j), ms, faults(j));
      }
      assert !MayLoseAt(faults, k);
    }
  }

  /** A batch that notices everything: one counter, then as many gauges as it takes to reach
      every statement a fault is scheduled at. */
  function Probe(n: nat): seq<Metrics> {
    if n == 0 then [CounterMetric("c", 1)] else Probe(n - 1) + [GaugeMetric("g", Finite(0.0))]
  }

  const PROBED := ("c", COUNTER)

  /** The counter's row holds at most `b`. */
  predicate ProbedOk(t: Table, b: nat) {
    PROBED in t ==> t[PROBED].delta.Some? && 0 <= t[PROBED].delta.value <= b
  }

  function ProbedCount(t: Table): int {
    if PROBED in t && t[PROBED].delta.Some? then t[PROBED].delta.value else 0
  }

  predicate Reached(f: Fault, n: nat) {
    f.AtExec? && f.k <= n
  }

  lemma {:induction false} ProbeLoop(t: Table, n: nat, f: Fault, b: nat)
    requires ProbedOk(t, b) && b <= 4
    ensures |Probe(n)| == n + 1
    ensures Reached(f, n) ==> TxLoop(t, Probe(n), f) == Failed(f.error)
    ensures !Reached(f, n) ==>
              var r := TxLoop(t, Probe(n), f);
              r.Done? && ProbedOk(r.table, b + 1) && ProbedCount(r.table) == ProbedCount(t) + 1
  {
    if n == 0 {
      ProbeCounter(t, f, b);
    } else {
      ProbeLoop(t, n - 1, f, b);
      assert Probe(n)[..n] == Probe(n - 1);
      ProbeGauge(t, n, f);
    }
  }

  lemma ProbeCounter(t: Table, f: Fault, b: nat)
    requires ProbedOk(t, b) && b <= 4
    ensures var r := TxLoop(t, Probe(0), f);
            if Reached(f, 0) then r == Failed(f.error)
            else r.Done? && ProbedOk(r.table, b + 1) && ProbedCount(r.table) == ProbedCount(t) + 1
  {
    var m := CounterMetric("c", 1);
    assert GAUGE != COUNTER && IsCounter(m) && !IsGauge(m);
    assert Probe(0) == [m] && [m][..0] == [] && TxLoop(t, [], f) == Done(t);
    assert TxLoop(t, [m], f) == if Reached(f, 0) then Failed(f.error) else Upsert(t, m);
  }

  /** The gauges do not touch the counter's row. */
  lemma {:induction false} ProbeGauge(t: Table, n: nat, f: Fault)
    requires n > 0 && |Probe(n)| == n + 1 && Probe(n)[..n] == Probe(n - 1)
    ensures var before, after := TxLoop(t, Probe(n - 1), f), TxLoop(t, Probe(n), f);
            if before.Failed? then after == before
            else if f.AtExec? && f.k == n then after == Failed(f.error)
            else after.Done? && (PROBED in after.table <==> PROBED in before.table)
                 && (PROBED in after.table ==> after.table[PROBED] == before.table[PROBED])
  {
    var m := GaugeMetric("g", Finite(0.0));
    assert Probe(n)[n] == m;
    assert GAUGE != COUNTER && IsGauge(m);
    assert ("g", GAUGE) != PROBED;
  }

  lemma ProbeAttempt(t: Table, n: nat, f: Fault, b: nat)
    requires ProbedOk(t, b) && b <= 4
    ensures var u := Attempt(t, Probe(n), f).0;
            ProbedOk(u, b + 1) && ProbedCount(u) == ProbedCount(t) + (if Committed(t, Probe(n), f) then 1 else 0)
    ensures Retried(f) && (f.AtExec? ==> f.k <= n) ==> Attempt(t, Probe(n), f).1 == Err(true)
    ensures f.AtCommit? && f.applied ==> LostCommit(t, Probe(n), f)
  {
    ProbeLoop(t, n, f, b);
  }

  /** On an empty table the counter shows the number of commits. */
  lemma {:induction false} ProbeCounts(faults: nat -> Fault, n: nat, k: nat)
    requires k <= 4
    ensures var u := Seen(Attempts(Probe(n), faults), map[], k);
            ProbedOk(u, k) && ProbedCount(u) == Commits(map[], Probe(n), faults, k)
  {
    if k > 0 {
      ProbeCounts(faults, n, k - 1);
      ProbeAttempt(Seen(Attempts(Probe(n), faults), map[], k - 1), n, faults(k - 1), k - 1);
    }
  }

  function StatementOf(f: Fault): nat {
    if f.AtExec? then f.k else 0
  }

  /** A batch long enough for every scheduled statement fault among the first four attempts. */
  function LongEnough(faults: nat -> Fault): nat {
    StatementOf(faults(0)) + StatementOf(faults(1)) + StatementOf(faults(2)) + StatementOf(faults(3))
  }

  lemma ProbeIsRetried(faults: nat -> Fault, k: nat)
    requires k < 4 && Retried(faults(k))
    ensures RetriesAt(map[], Probe(LongEnough(faults)), faults, k)
  {
    var n := LongEnough(faults);
    ProbeCounts(faults, n, k);
    assert StatementOf(faults(k)) <= n by {
      assert k == 0 || k == 1 || k == 2 || k == 3;
    }
    ProbeAttempt(Seen(Attempts(Probe(n), faults), map[], k), n, faults(k), k);
  }

  /** The attempt that may lose its commit is made, and does. */
  lemma ProbeLoses(faults: nat -> Fault, i: nat)
    requires i < 4 && MayLoseAt(faults, i)
    ensures !NoLostCommit(map[], Probe(LongEnough(faults)), faults)
  {
    var n := LongEnough(faults);
    var ms := Probe(n);
    AttemptsMade(map[], ms, faults);
    var made := UpdateSpec(map[], ms, faults).attempts;
    if made <= i {
      ProbeIsRetried(faults, made - 1);
    }
    ProbeCounts(faults, n, i);
    ProbeAttempt(Seen(Attempts(ms, faults), map[], i), n, faults(i), i);
    assert LosesAt(map[], ms, faults, i);
  }

  lemma ProbeNotices(faults: nat -> Fault, n: nat)
    requires !NoLostCommit(map[], Probe(n), faults)
    ensures !OnceOrNotAtAll(map[], Probe(n), faults)
  {
    var ms := Probe(n);
    CommittedOnceIff(map[], ms, faults);
    AttemptsMade(map[], ms, faults);
    DoContract(Attempts(ms, faults), map[]);
    ProbeCounts(faults, n, UpdateSpec(map[], ms, faults).attempts);
    ProbeLoop(map[], n, NoFault, 0);
    TxLoopIsExecAll(map[], ms, NoFault);
  }

  /** The exact schedules: whatever the table and the batch, nil means applied exactly once and
      an error means untouched, iff no attempt the schedule allows reports a commit as failed
      that took effect. */
  lemma ScheduleKeepsPromiseIff(faults: nat -> Fault)
    ensures (forall t, ms :: OnceOrNotAtAll(t, ms, faults)) <==> HonestSchedule(faults)
  {
    if HonestSchedule(faults) {
      forall t, ms ensures OnceOrNotAtAll(t, ms, faults) {
        HonestScheduleSuffices(t, ms, faults);
        BatchExactlyOnceOrNotAtAll(t, ms, faults);
      }
    } else {
      var i: nat :| i < 4 && MayLoseAt(faults, i);
      ProbeLoses(faults, i);
      ProbeNotices(faults, LongEnough(faults));
    }
  }

  // ---- whole histories ----

  datatype DbCall = DbCall(ms: seq<Metrics>, faults: nat -> Fault)

  function RunDb(t: Table, calls: seq<DbCall>): Table {
    if calls == [] then t
    else UpdateSpec(RunDb(t, calls[..|calls| - 1]), calls[|calls| - 1].ms, calls[|calls| - 1].faults).state
  }

  /** The metrics of the calls that returned nil. */
  function Succeeded(t: Table, calls: seq<DbCall>): seq<Metrics> {
    if calls == [] then []
    else
      var front, c := calls[..|calls| - 1], calls[|calls| - 1];
      Succeeded(t, front) + (if UpdateSpec(RunDb(t, front), c.ms, c.faults).outcome.Ok? then c.ms else [])
  }

  /** No call of the history loses a commit. */
  ghost predicate NoneLost(t: Table, calls: seq<DbCall>) {
    calls == [] ||
    var front, c := calls[..|calls| - 1], calls[|calls| - 1];
    NoneLost(t, front) && NoLostCommit(RunDb(t, front), c.ms, c.faults)
  }

  /** The database follows the memory store over every history of calls in which no commit is
      lost, a failed call counting for nothing: every lookup of every reader agrees. */
  lemma {:induction false} DatabaseRefinesMemory(calls: seq<DbCall>, name: string, mtype: string)
    requires NoneLost(map[], calls)
    ensures Agrees(RunDb(map[], calls), ApplyAll(EMPTY, Succeeded(map[], calls)))
    ensures Select(RunDb(map[], calls), name, mtype) == Lookup(ApplyAll(EMPTY, Succeeded(map[], calls)), name, mtype)
  {
    if calls != [] {
      var front, c := calls[..|calls| - 1], calls[|calls| - 1];
      DatabaseRefinesMemory(front, name, mtype);
      var t, s := RunDb(map[], front), ApplyAll(EMPTY, Succeeded(map[], front));
      BatchExactlyOnceOrNotAtAll(t, c.ms, c.faults);
      ExecAllRefines(t, s, c.ms);
      ApplyAllConcat(EMPTY, Succeeded(map[], front), c.ms);
      assert Succeeded(map[], front) + [] == Succeeded(map[], front);
    }
    LookupsAgree(RunDb(map[], calls), ApplyAll(EMPTY, Succeeded(map[], calls)), name, mtype);
  }

  /** The promise broken: SQLSTATE 08007 (outcome of the transaction
      unknown) is retried, so a committed batch can be added twice and still return nil. */
  lemma AmbiguousCommitAddsTwice()
    ensures var ms := [CounterMetric("c", 1)];
            var faults := (i: nat) => if i == 0 then AtCommit(PgError("08007"), true) else NoFault;
            && UpdateSpec(map[], ms, faults).outcome.Ok?
            && UpdateSpec(map[], ms, faults).state == map[("c", COUNTER) := Row(Some(2), None)]
  {
    var m := CounterMetric("c", 1);
    var ms := [m];
    var faults := (i: nat) => if i == 0 then AtCommit(PgError("08007"), true) else NoFault;
    var t1: Table := map[("c", COUNTER) := Row(Some(1), None)];
    var t2: Table := map[("c", COUNTER) := Row(Some(2), None)];
    assert ms[..0] == [] && GAUGE != COUNTER;
    assert TxLoop(map[], ms, faults(0)) == Done(t1);
    assert TxLoop(t1, ms, faults(1)) == Done(t2);
    var op := Attempts(ms, faults);
    assert op(map[], 0) == (t1, Err(true));
    assert op(t1, 1) == (t2, Ok);
    assert DoFrom(op, t1, 1) == Result(t2, Ok, 2);
  }
}
