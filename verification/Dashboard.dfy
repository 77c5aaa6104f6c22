/** The dashboard rows: `GetAllMetrics` of storage.go and `ListMetrics` of handler.go. How a
    value is printed is a parameter. */
module Dashboard {
  import opened Model
  import opened Storage
  import opened MemoryBackend
  import opened Order

  datatype Row = Row(mtype: string, name: string, value: string)

  datatype Printer = Printer(gauge: Float64 -> string, counter: Int64 -> string)

  function KeyOf(r: Row): string {
    r.mtype + "/" + r.name
  }

  /** `strings.IndexByte(key, '/')`. */
  function IndexSlash(s: string): int {
    if s == "" then -1
    else if s[0] == '/' then 0
    else var i := IndexSlash(s[1..]); if i < 0 then -1 else i + 1
  }

  lemma {:induction false} IndexAfterPrefix(p: string, rest: string)
    requires forall i :: 0 <= i < |p| ==> p[i] != '/'
    ensures IndexSlash(p + "/" + rest) == |p|
  {
    var s := p + "/" + rest;
    if p != "" {
      assert s[1..] == p[1..] + "/" + rest;
      IndexAfterPrefix(p[1..], rest);
    }
  }

  /** Splitting at the first slash inverts the key, whatever the name: empty or with slashes. */
  lemma KeySplits(mtype: string, name: string)
    requires mtype == GAUGE || mtype == COUNTER
    ensures var key := mtype + "/" + name;
            IndexSlash(key) == |mtype| && key[..|mtype|] == mtype && key[|mtype| + 1..] == name
  {
    IndexAfterPrefix(mtype, name);
  }

  /** The rows a store should show. */
  predicate IsRowOf(r: Row, s: Store, p: Printer) {
    || (r.mtype == GAUGE && r.name in s.gauges && r.value == p.gauge(s.gauges[r.name]))
    || (r.mtype == COUNTER && r.name in s.counters && r.value == p.counter(s.counters[r.name]))
  }

  predicate RowLess(a: Row, b: Row) {
    if a.mtype != b.mtype then Less(a.mtype, b.mtype) else Less(a.name, b.name)
  }

  lemma RowLessIsStrictOrder()
    ensures StrictOrder(RowLess)
  {
    forall x ensures !RowLess(x, x) {
      LessTotal(x.name, x.name);
    }
    forall x, y, z | RowLess(x, y) && RowLess(y, z) ensures RowLess(x, z) {
      if x.mtype == y.mtype == z.mtype {
        LessTransitive(x.name, y.name, z.name);
      } else if x.mtype != y.mtype && y.mtype != z.mtype {
        LessTransitive(x.mtype, y.mtype, z.mtype);
        LessTotal(x.mtype, y.mtype);
      }
    }
  }

  /** The row a key and its value stand for. */
  function RowAt(key: string, value: string): Row
    requires 0 <= IndexSlash(key) < |key|
  {
    Row(key[..IndexSlash(key)], key[IndexSlash(key) + 1..], value)
  }

  lemma RowKeyRow(r: Row)
    requires r.mtype == GAUGE || r.mtype == COUNTER
    ensures 0 <= IndexSlash(KeyOf(r)) < |KeyOf(r)| && RowAt(KeyOf(r), r.value) == r
  {
    KeySplits(r.mtype, r.name);
  }

  predicate HasRow(m: map<string, string>, r: Row) {
    KeyOf(r) in m && m[KeyOf(r)] == r.value
  }

  /** An entry stands for a row of the store. */
  predicate EntryOk(key: string, value: string, s: Store, p: Printer) {
    && 0 <= IndexSlash(key) < |key|
    && IsRowOf(RowAt(key, value), s, p)
    && KeyOf(RowAt(key, value)) == key
  }

  ghost predicate EntriesOk(m: map<string, string>, s: Store, p: Printer) {
    forall key :: key in m ==> EntryOk(key, m[key], s, p)
  }

  /** The result map is the rows of the store, keyed. */
  ghost predicate IsDump(m: map<string, string>, s: Store, p: Printer) {
    EntriesOk(m, s, p) && forall r :: IsRowOf(r, s, p) ==> HasRow(m, r)
  }

  lemma AddRow(m: map<string, string>, r: Row, s: Store, p: Printer)
    requires EntriesOk(m, s, p) && IsRowOf(r, s, p)
    ensures EntriesOk(m[KeyOf(r) := r.value], s, p) && HasRow(m[KeyOf(r) := r.value], r)
    ensures forall x :: IsRowOf(x, s, p) && HasRow(m, x) ==> HasRow(m[KeyOf(r) := r.value], x)
  {
    RowKeyRow(r);
    forall x | IsRowOf(x, s, p) && HasRow(m, x) ensures HasRow(m[KeyOf(r) := r.value], x) {
      if KeyOf(x) == KeyOf(r) {
        RowKeyRow(x);
        assert x.mtype == r.mtype && x.name == r.name;
      }
    }
  }

  method AddGauges(s: Store, p: Printer) returns (m: map<string, string>)
    ensures EntriesOk(m, s, p) && forall r :: IsRowOf(r, s, p) && r.mtype == GAUGE ==> HasRow(m, r)
  {
    m := map[];
    var todo := s.gauges.Keys;
    while todo != {}
      invariant todo <= s.gauges.Keys && EntriesOk(m, s, p)
      invariant forall r :: IsRowOf(r, s, p) && r.mtype == GAUGE && r.name !in todo ==> HasRow(m, r)
      decreases todo
    {
      var name :| name in todo;
      var r := Row(GAUGE, name, p.gauge(s.gauges[name]));
      AddRow(m, r, s, p);
      m := m[GAUGE + "/" + name := r.value];
      todo := todo - {name};
    }
  }

  method AddCounters(m0: map<string, string>, s: Store, p: Printer) returns (m: map<string, string>)
    requires EntriesOk(m0, s, p) && forall r :: IsRowOf(r, s, p) && r.mtype == GAUGE ==> HasRow(m0, r)
    ensures IsDump(m, s, p)
  {
    m := m0;
    var todo := s.counters.Keys;
    while todo != {}
      invariant todo <= s.counters.Keys && EntriesOk(m, s, p)
      invariant forall r :: IsRowOf(r, s, p) && (r.mtype == COUNTER ==> r.name !in todo) ==> HasRow(m, r)
      decreases todo
    {
      var name :| name in todo;
      var r := Row(COUNTER, name, p.counter(s.counters[name]));
      assert GAUGE != COUNTER;
      AddRow(m, r, s, p);
      m := m[COUNTER + "/" + name := r.value];
      todo := todo - {name};
    }
  }

  method GetAllMetrics(mem: MemStorage, p: Printer) returns (result: map<string, string>)
    ensures IsDump(result, mem.Contents(), p)
  {
    result := AddGauges(mem.Contents(), p);
    result := AddCounters(result, mem.Contents(), p);
  }

  lemma KeyedRow(m: map<string, string>, s: Store, p: Printer, key: string)
    requires IsDump(m, s, p) && key in m
    ensures EntryOk(key, m[key], s, p)
    ensures forall r :: IsRowOf(r, s, p) && KeyOf(r) == key ==> r == RowAt(key, m[key])
  {
    forall r | IsRowOf(r, s, p) && KeyOf(r) == key ensures r == RowAt(key, m[key]) {
      assert HasRow(m, r);
      RowKeyRow(r);
    }
  }

  /** `data` has one row for every key no longer to do. */
  ghost predicate SplitSoFar(data: seq<Row>, todo: set<string>, s: Store, p: Printer) {
    && (forall i :: 0 <= i < |data| ==> IsRowOf(data[i], s, p) && KeyOf(data[i]) !in todo)
    && (forall i, j :: 0 <= i < j < |data| ==> KeyOf(data[i]) != KeyOf(data[j]))
    && (forall r :: IsRowOf(r, s, p) && KeyOf(r) !in todo ==> r in data)
  }

  lemma SplitOneMore(data: seq<Row>, todo: set<string>, row: Row, s: Store, p: Printer)
    requires SplitSoFar(data, todo, s, p) && KeyOf(row) in todo && IsRowOf(row, s, p)
    requires forall r :: IsRowOf(r, s, p) && KeyOf(r) == KeyOf(row) ==> r == row
    ensures SplitSoFar(data + [row], todo - {KeyOf(row)}, s, p)
  {
    var more := data + [row];
    forall i, j | 0 <= i < j < |more| ensures KeyOf(more[i]) != KeyOf(more[j]) {
      if j == |data| {
        assert KeyOf(data[i]) !in todo;
      }
    }
    forall r | IsRowOf(r, s, p) && KeyOf(r) !in todo - {KeyOf(row)} ensures r in more {
      if KeyOf(r) == KeyOf(row) {
        assert more[|data|] == r;
      }
    }
  }

  /** Splitting every key, in map order; every key has a slash, so none is skipped. */
  method SplitKeys(metrics: map<string, string>, ghost s: Store, ghost p: Printer) returns (data: seq<Row>)
    requires IsDump(metrics, s, p)
    ensures SplitSoFar(data, {}, s, p)
  {
    data := [];
    var todo := metrics.Keys;
    assert forall r :: IsRowOf(r, s, p) ==> HasRow(metrics, r);
    while todo != {}
      invariant todo <= metrics.Keys && SplitSoFar(data, todo, s, p)
      decreases todo
    {
      var key :| key in todo;
      KeyedRow(metrics, s, p, key);
      var i := IndexSlash(key);
      SplitOneMore(data, todo, RowAt(key, metrics[key]), s, p);
      data := data + [Row(key[..i], key[i + 1..], metrics[key])];
      todo := todo - {key};
    }
  }

  /** The rows are exactly the stored metrics, one each, strictly sorted by type and name. */
  method ListMetrics(mem: MemStorage, p: Printer) returns (rows: seq<Row>)
    ensures Ascending(RowLess, rows)
    ensures forall r :: r in rows <==> IsRowOf(r, mem.Contents(), p)
  {
    var metrics := GetAllMetrics(mem, p);
    var data := SplitKeys(metrics, mem.Contents(), p);
    RowLessIsStrictOrder();
    forall i, j | 0 <= i < j < |data| ensures RowLess(data[i], data[j]) || RowLess(data[j], data[i]) {
      LessTotal(data[i].mtype, data[j].mtype);
      LessTotal(data[i].name, data[j].name);
    }
    rows := SortSlice(data, RowLess);
    assert forall r :: r in rows <==> r in multiset(rows);
    assert forall r :: r in data <==> r in multiset(data);
  }

  /** What that order is: every counter row comes before every gauge row, and within a type the
      names ascend. */
  lemma RowOrder(rows: seq<Row>, s: Store, p: Printer, i: nat, j: nat)
    requires Ascending(RowLess, rows) && i < j < |rows|
    requires forall r :: r in rows ==> IsRowOf(r, s, p)
    ensures rows[i].mtype == rows[j].mtype ==> Less(rows[i].name, rows[j].name)
    ensures rows[i].mtype != rows[j].mtype ==> rows[i].mtype == "counter" && rows[j].mtype == "gauge"
  {
    assert RowLess(rows[i], rows[j]);
    assert rows[i] in rows && rows[j] in rows;
    CounterBeforeGauge();
  }

  lemma CounterBeforeGauge()
    ensures Less(COUNTER, GAUGE) && !Less(GAUGE, COUNTER)
  {
    assert COUNTER[0] == 'c' && GAUGE[0] == 'g';
  }

  /** The page does not depend on any map order. */
  lemma RowsAreUnique(a: seq<Row>, b: seq<Row>, s: Store, p: Printer)
    requires Ascending(RowLess, a) && forall r :: r in a <==> IsRowOf(r, s, p)
    requires Ascending(RowLess, b) && forall r :: r in b <==> IsRowOf(r, s, p)
    ensures a == b
  {
    RowLessIsStrictOrder();
    AscendingUnique(RowLess, a, b);
  }
}
