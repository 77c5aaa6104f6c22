/** internal/repository/filestorage.go: snapshots of the memory store in one JSON file.
    The JSON text is represented by the list it decodes to; one file write is one step. */
module FileBackend {
  import opened Model
  import opened Storage
  import opened MemoryBackend
  import opened Service

  datatype File = Missing | Garbled | Saved(ms: seq<Metrics>)

  predicate AllFinite(s: Store) {
    forall name :: name in s.gauges ==> s.gauges[name].Finite?
  }

  predicate AllEncodable(ms: seq<Metrics>) {
    forall i :: 0 <= i < |ms| ==> Encodable(ms[i])
  }

  /** A snapshot can be marshalled, in whatever order it was taken, iff every gauge is finite. */
  lemma EncodableIffFinite(ms: seq<Metrics>, s: Store)
    requires Enumerates(ms, s)
    ensures AllEncodable(ms) <==> AllFinite(s)
  {
    if AllFinite(s) {
      forall i | 0 <= i < |ms| ensures Encodable(ms[i]) {
        assert EntryOf(ms[i], s);
      }
    }
    if AllEncodable(ms) {
      forall name | name in s.gauges ensures s.gauges[name].Finite? {
        var k :| 0 <= k < |ms| && ms[k] == GaugeMetric(name, s.gauges[name]);
        assert Encodable(ms[k]);
      }
    }
  }

  /** After any run of calls the store can be saved iff the last valid write of every gauge is
      a finite number. */
  lemma SaveableIff(calls: seq<Call>)
    ensures var h := History(calls);
            AllFinite(RunCalls(EMPTY, calls)) <==>
            forall name, i :: LastWrite(h, name, i) ==> h[i].value.value.Finite?
  {
    var r, h := RunCalls(EMPTY, calls), History(calls);
    forall name, i | LastWrite(h, name, i) ensures name in r.gauges && r.gauges[name] == h[i].value.value {
      RunMeaning(calls, name);
    }
    if forall name, i :: LastWrite(h, name, i) ==> h[i].value.value.Finite? {
      forall name | name in r.gauges ensures r.gauges[name].Finite? {
        RunMeaning(calls, name);
        var i := HasLastWrite(h, name);
      }
    }
  }

  /** One text update with NaN, which the service accepts, and no snapshot can be marshalled;
      overwriting the gauge repairs it. */
  lemma NaNBlocksSaving(ms: seq<Metrics>)
    ensures var bad := Text(GAUGE, "x", Some(NaN), None);
            var good := Text(GAUGE, "x", Some(Finite(0.0)), None);
            && Service.Outcome(bad) == Service.Nil
            && (Enumerates(ms, RunCalls(EMPTY, [bad])) ==> !AllEncodable(ms))
            && AllFinite(RunCalls(EMPTY, [bad] + [good]))
  {
    var bad, good := Text(GAUGE, "x", Some(NaN), None), Text(GAUGE, "x", Some(Finite(0.0)), None);
    assert [bad][..0] == [] && ([bad] + [good])[..1] == [bad];
    ApplyAllOne(EMPTY, GaugeMetric("x", NaN));
    var r := RunCalls(EMPTY, [bad]);
    assert RunCalls(EMPTY, [bad]) == Effect(RunCalls(EMPTY, []), bad);
    assert r == EMPTY.(gauges := EMPTY.gauges["x" := NaN]);
    assert "x" in r.gauges;
    ApplyAllOne(r, GaugeMetric("x", Finite(0.0)));
    if Enumerates(ms, r) {
      EncodableIffFinite(ms, r);
    }
  }

  class Disk {
    var file: File
  }

  class FileBackedStorage {
    const mem: MemStorage
    const disk: Disk

    constructor (disk: Disk)
      ensures this.disk == disk && fresh(mem) && mem.Contents() == EMPTY
    {
      this.disk := disk;
      mem := new MemStorage();
    }

    method Save(writable: bool) returns (ok: bool)
      modifies disk
      ensures ok <==> writable && AllFinite(mem.Contents())
      ensures ok ==> disk.file.Saved? && Enumerates(disk.file.ms, mem.Contents())
      ensures !ok ==> disk.file == old(disk.file)
    {
      var data := mem.Snapshot();
      EncodableIffFinite(data, mem.Contents());
      if !AllEncodable(data) { return false; }
      if !writable { return false; }
      disk.file := Saved(data);
      return true;
    }

    method Load(readable: bool) returns (ok: bool)
      modifies mem
      ensures ok <==> disk.file.Missing? || (readable && disk.file.Saved?)
      ensures mem.Contents() == if readable && disk.file.Saved?
                                then ApplyAll(old(mem.Contents()), disk.file.ms)
                                else old(mem.Contents())
    {
      if disk.file.Missing? { return true; }
      if !readable || disk.file.Garbled? { return false; }
      var metrics := disk.file.ms;
      for i := 0 to |metrics|
        invariant mem.Contents() == ApplyAll(old(mem.Contents()), metrics[..i])
      {
        var m := metrics[i];
        ApplyAllSnoc(old(mem.Contents()), metrics[..i], m);
        assert metrics[..i + 1] == metrics[..i] + [m];
        if m.mtype == GAUGE {
          if m.value.Some? { mem.UpdateGauge(m.id, m.value.value); }
        } else if m.mtype == COUNTER {
          if m.delta.Some? { mem.UpdateCounter(m.id, m.delta.value); }
        }
      }
      assert metrics[..|metrics|] == metrics;
      return true;
    }

    /** A restart: what was saved is what the next process starts with, exactly. */
    method Reopen() returns (ok: bool, next: FileBackedStorage)
      modifies disk
      ensures ok <==> AllFinite(mem.Contents())
      ensures fresh(next.mem)
      ensures ok ==> next.mem.Contents() == mem.Contents()
    {
      ok := Save(true);
      next := new FileBackedStorage(disk);
      if ok {
        var loaded := next.Load(true);
        SnapshotRestores(disk.file.ms, mem.Contents());
      }
    }
  }
}
