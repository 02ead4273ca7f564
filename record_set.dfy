/**
 * A set of records read back for display, and its conversion into one
 * series of `[time, value]` points per recorded field.
 */
module RecordSets {
  import opened Js
  import opened RecordValues
  import opened Records

  /** `{ id: key, values: [[time, value], …] }`. */
  datatype DataSet = DataSet(id: string, points: seq<(Time, Number)>)

  /** What `getDataSets` reads of one record: its time and a copy of its values. */
  type Snapshot = seq<(Time, seq<Entry>)>

  function SnapshotOf(records: seq<ImmutableRecord>): (s: Snapshot)
    reads set r | r in records :: r.values
    ensures |s| == |records|
    ensures forall i :: 0 <= i < |records| ==> s[i] == (records[i].date, records[i].values.entries)
  {
    if records == [] then []
    else SnapshotOf(records[..|records| - 1]) + [(records[|records| - 1].date, records[|records| - 1].values.entries)]
  }

  /** The position of the data set with this id, or the count when there is none. */
  function Find(sets: seq<DataSet>, id: string): (k: nat)
    ensures k <= |sets|
    ensures k < |sets| ==> sets[k].id == id
    ensures forall i :: 0 <= i < k ==> sets[i].id != id
  {
    if sets == [] then 0
    else if sets[0].id == id then 0
    else 1 + Find(sets[1..], id)
  }

  /** One iteration of the inner loop: the point goes to its key's data set, created on first use. */
  function AddPoint(sets: seq<DataSet>, key: string, point: (Time, Number)): seq<DataSet>
  {
    var k := Find(sets, key);
    if k == |sets| then sets + [DataSet(key, [point])]
    else sets[k := DataSet(key, sets[k].points + [point])]
  }

  /** The inner loop over one record's values. */
  function AddRecord(sets: seq<DataSet>, time: Time, entries: seq<Entry>): seq<DataSet>
  {
    if entries == [] then sets
    else
      var last := entries[|entries| - 1];
      AddPoint(AddRecord(sets, time, entries[..|entries| - 1]), last.key, (time, last.value))
  }

  /** The data sets built from the records, in the order their keys first appear. */
  function DataSetsOf(snap: Snapshot): seq<DataSet>
  {
    if snap == [] then []
    else
      var last := snap[|snap| - 1];
      AddRecord(DataSetsOf(snap[..|snap| - 1]), last.0, last.1)
  }

  // ---------------------------------------------------------------------
  // Reference definitions
  // ---------------------------------------------------------------------

  /** The points one record contributes under `key`. */
  function PointsIn(time: Time, entries: seq<Entry>, key: string): seq<(Time, Number)>
  {
    if entries == [] then []
    else
      var last := entries[|entries| - 1];
      PointsIn(time, entries[..|entries| - 1], key) + (if last.key == key then [(time, last.value)] else [])
  }

  /** All points under `key`, record by record. */
  function PointsOf(snap: Snapshot, key: string): seq<(Time, Number)>
  {
    if snap == [] then []
    else PointsOf(snap[..|snap| - 1], key) + PointsIn(snap[|snap| - 1].0, snap[|snap| - 1].1, key)
  }

  predicate KeyOccurs(snap: Snapshot, key: string)
  {
    exists i :: 0 <= i < |snap| && HasKey(snap[i].1, key)
  }

  function CountEntries(snap: Snapshot): nat
  {
    if snap == [] then 0 else CountEntries(snap[..|snap| - 1]) + |snap[|snap| - 1].1|
  }

  function CountPoints(sets: seq<DataSet>): nat
  {
    if sets == [] then 0 else CountPoints(sets[..|sets| - 1]) + |sets[|sets| - 1].points|
  }

  predicate HasId(sets: seq<DataSet>, id: string)
  {
    exists d :: d in sets && d.id == id
  }

  predicate DistinctIds(sets: seq<DataSet>)
  {
    forall i, j :: 0 <= i < j < |sets| ==> sets[i].id != sets[j].id
  }

  /** The data set of `key` in `sets`, as a sequence of points (empty when there is none). */
  function PointsUnder(sets: seq<DataSet>, key: string): seq<(Time, Number)>
  {
    var k := Find(sets, key);
    if k == |sets| then [] else sets[k].points
  }

  // ---------------------------------------------------------------------
  // Properties
  // ---------------------------------------------------------------------

  lemma {:induction false} CountPointsUpdate(sets: seq<DataSet>, k: nat, d: DataSet)
    requires k < |sets|
    ensures CountPoints(sets[k := d]) == CountPoints(sets) - |sets[k].points| + |d.points|
    decreases |sets|
  {
    var n := |sets| - 1;
    if k < n {
      CountPointsUpdate(sets[..n], k, d);
      assert sets[k := d][..n] == sets[..n][k := d];
    } else {
      assert sets[k := d][..n] == sets[..n];
    }
  }

  /** Adding a point extends exactly its key's series and keeps ids distinct. */
  lemma AddPointFacts(sets: seq<DataSet>, key: string, point: (Time, Number))
    requires DistinctIds(sets)
    ensures DistinctIds(AddPoint(sets, key, point))
    ensures PointsUnder(AddPoint(sets, key, point), key) == PointsUnder(sets, key) + [point]
    ensures forall other :: other != key ==> PointsUnder(AddPoint(sets, key, point), other) == PointsUnder(sets, other)
    ensures forall id :: HasId(AddPoint(sets, key, point), id) <==> id == key || HasId(sets, id)
    ensures CountPoints(AddPoint(sets, key, point)) == CountPoints(sets) + 1
  {
    if Find(sets, key) == |sets| {
      AddPointNew(sets, key, point);
    } else {
      AddPointExisting(sets, key, point);
    }
  }

  /** The first point under `key` opens a new data set at the end. */
  lemma AddPointNew(sets: seq<DataSet>, key: string, point: (Time, Number))
    requires DistinctIds(sets) && Find(sets, key) == |sets|
    ensures DistinctIds(AddPoint(sets, key, point))
    ensures PointsUnder(AddPoint(sets, key, point), key) == PointsUnder(sets, key) + [point]
    ensures forall other :: other != key ==> PointsUnder(AddPoint(sets, key, point), other) == PointsUnder(sets, other)
    ensures forall id :: HasId(AddPoint(sets, key, point), id) <==> id == key || HasId(sets, id)
    ensures CountPoints(AddPoint(sets, key, point)) == CountPoints(sets) + 1
  {
    var out := AddPoint(sets, key, point);
    assert out[..|sets|] == sets;
    forall other | other != key ensures PointsUnder(out, other) == PointsUnder(sets, other) {
      FindPrefix(out, sets, other);
    }
    FindPrefix(out, sets, key);
  }

  /** A later point under `key` extends the data set already there. */
  lemma AddPointExisting(sets: seq<DataSet>, key: string, point: (Time, Number))
    requires DistinctIds(sets) && Find(sets, key) < |sets|
    ensures DistinctIds(AddPoint(sets, key, point))
    ensures PointsUnder(AddPoint(sets, key, point), key) == PointsUnder(sets, key) + [point]
    ensures forall other :: other != key ==> PointsUnder(AddPoint(sets, key, point), other) == PointsUnder(sets, other)
    ensures forall id :: HasId(AddPoint(sets, key, point), id) <==> id == key || HasId(sets, id)
    ensures CountPoints(AddPoint(sets, key, point)) == CountPoints(sets) + 1
  {
    var k := Find(sets, key);
    var d := DataSet(key, sets[k].points + [point]);
    var out := sets[k := d];
    assert AddPoint(sets, key, point) == out;
    assert forall i :: 0 <= i < |sets| ==> out[i].id == sets[i].id;
    CountPointsUpdate(sets, k, d);
    SameIds(sets, out);
    FindSameIds(sets, out, key);
    forall other | other != key ensures PointsUnder(out, other) == PointsUnder(sets, other) {
      UpdateOthers(sets, k, d, other);
    }
  }

  /** Replacing the data set at `k` by one with the same id leaves every other id's series alone. */
  lemma UpdateOthers(sets: seq<DataSet>, k: nat, d: DataSet, other: string)
    requires k < |sets| && d.id == sets[k].id && other != d.id
    ensures PointsUnder(sets[k := d], other) == PointsUnder(sets, other)
  {
    var out := sets[k := d];
    assert forall i :: 0 <= i < |sets| ==> out[i].id == sets[i].id;
    FindSameIds(sets, out, other);
    var m := Find(sets, other);
    if m < |sets| {
      assert m != k;
    }
  }

  /** Two sequences with the same ids position by position have the same ids. */
  lemma SameIds(a: seq<DataSet>, b: seq<DataSet>)
    requires |a| == |b| && forall i :: 0 <= i < |a| ==> a[i].id == b[i].id
    ensures DistinctIds(a) ==> DistinctIds(b)
    ensures forall id :: HasId(a, id) <==> HasId(b, id)
  {
    forall id ensures HasId(a, id) <==> HasId(b, id) {
      if HasId(a, id) {
        var d :| d in a && d.id == id;
        var i :| 0 <= i < |a| && a[i] == d;
        assert b[i] in b;
      }
      if HasId(b, id) {
        var d :| d in b && d.id == id;
        var i :| 0 <= i < |b| && b[i] == d;
        assert a[i] in a;
      }
    }
  }



  lemma PointsAssoc(a: seq<(Time, Number)>, b: seq<(Time, Number)>, c: seq<(Time, Number)>)
    ensures (a + b) + c == a + (b + c)
  {
  }

  /** Finding an id in an extension of `sets` that `sets` already answers. */
  lemma FindPrefix(longer: seq<DataSet>, sets: seq<DataSet>, id: string)
    requires |longer| == |sets| + 1 && longer[..|sets|] == sets
    ensures Find(sets, id) < |sets| ==> Find(longer, id) == Find(sets, id)
    ensures Find(sets, id) == |sets| ==> Find(longer, id) == (if longer[|sets|].id == id then |sets| else |longer|)
  {
    assert forall i :: 0 <= i < |sets| ==> longer[i] == sets[i];
  }

  /** Finding an id in a sequence with the same ids position by position. */
  lemma FindSameIds(a: seq<DataSet>, b: seq<DataSet>, id: string)
    requires |a| == |b| && forall i :: 0 <= i < |a| ==> a[i].id == b[i].id
    ensures Find(a, id) == Find(b, id)
  {
  }

  /** The inner loop adds each value of a record to its key's series, in order. */
  lemma AddRecordFacts(sets: seq<DataSet>, time: Time, entries: seq<Entry>)
    requires DistinctIds(sets)
    ensures DistinctIds(AddRecord(sets, time, entries))
    ensures forall key :: PointsUnder(AddRecord(sets, time, entries), key) == PointsUnder(sets, key) + PointsIn(time, entries, key)
    ensures forall id :: HasId(AddRecord(sets, time, entries), id) <==> HasId(sets, id) || HasKey(entries, id)
    ensures CountPoints(AddRecord(sets, time, entries)) == CountPoints(sets) + |entries|
  {
    AddRecordIds(sets, time, entries);
    AddRecordPoints(sets, time, entries);
  }

  /** The ids and the point count the inner loop leaves. */
  lemma {:induction false} AddRecordIds(sets: seq<DataSet>, time: Time, entries: seq<Entry>)
    requires DistinctIds(sets)
    ensures DistinctIds(AddRecord(sets, time, entries))
    ensures forall id :: HasId(AddRecord(sets, time, entries), id) <==> HasId(sets, id) || HasKey(entries, id)
    ensures CountPoints(AddRecord(sets, time, entries)) == CountPoints(sets) + |entries|
    decreases |entries|
  {
    if entries != [] {
      var init := entries[..|entries| - 1];
      var last := entries[|entries| - 1];
      assert entries == init + [last];
      var mid := AddRecord(sets, time, init);
      var out := AddPoint(mid, last.key, (time, last.value));
      assert AddRecord(sets, time, entries) == out;
      AddRecordIds(sets, time, init);
      AddPointFacts(mid, last.key, (time, last.value));
      forall id ensures HasId(out, id) <==> HasId(sets, id) || HasKey(entries, id) {
        assert HasKey(entries, id) <==> HasKey(init, id) || last.key == id;
      }
    }
  }

  /** The series the inner loop leaves under each key. */
  lemma {:induction false} AddRecordPoints(sets: seq<DataSet>, time: Time, entries: seq<Entry>)
    requires DistinctIds(sets)
    ensures forall key :: PointsUnder(AddRecord(sets, time, entries), key) == PointsUnder(sets, key) + PointsIn(time, entries, key)
    decreases |entries|
  {
    if entries != [] {
      var init := entries[..|entries| - 1];
      var last := entries[|entries| - 1];
      var mid := AddRecord(sets, time, init);
      var out := AddPoint(mid, last.key, (time, last.value));
      assert AddRecord(sets, time, entries) == out;
      AddRecordPoints(sets, time, init);
      AddRecordIds(sets, time, init);
      AddPointFacts(mid, last.key, (time, last.value));
      forall key ensures PointsUnder(out, key) == PointsUnder(sets, key) + PointsIn(time, entries, key) {
        var tail: seq<(Time, Number)> := if last.key == key then [(time, last.value)] else [];
        assert PointsIn(time, entries, key) == PointsIn(time, init, key) + tail;
        assert PointsUnder(out, key) == PointsUnder(mid, key) + tail;
        PointsAssoc(PointsUnder(sets, key), PointsIn(time, init, key), tail);
      }
    }
  }


  /**
   * `getDataSets()`: one data set per key any record holds, with distinct
   * ids; the data set of a key holds that key's values, record by record,
   * each paired with its record's time; no value is lost or duplicated.
   */
  lemma {:induction false} DataSetsFacts(snap: Snapshot)
    ensures DistinctIds(DataSetsOf(snap))
    ensures forall key :: PointsUnder(DataSetsOf(snap), key) == PointsOf(snap, key)
    ensures forall id :: HasId(DataSetsOf(snap), id) <==> KeyOccurs(snap, id)
    ensures CountPoints(DataSetsOf(snap)) == CountEntries(snap)
    decreases |snap|
  {
    if snap != [] {
      var init := snap[..|snap| - 1];
      var last := snap[|snap| - 1];
      DataSetsFacts(init);
      AddRecordFacts(DataSetsOf(init), last.0, last.1);
      forall id ensures KeyOccurs(snap, id) <==> KeyOccurs(init, id) || HasKey(last.1, id) {
        if KeyOccurs(snap, id) {
          var i :| 0 <= i < |snap| && HasKey(snap[i].1, id);
          if i < |init| { assert init[i] == snap[i]; }
        }
        if KeyOccurs(init, id) {
          var i :| 0 <= i < |init| && HasKey(init[i].1, id);
          assert snap[i] == init[i];
        }
      }
    }
  }

  class RecordSet {
    const records: seq<ImmutableRecord>

    constructor (records: seq<ImmutableRecord>)
      ensures this.records == records
    {
      this.records := records;
    }

    /** `copy()`: a new set over a copy of the same records. */
    method Copy() returns (r: RecordSet)
      ensures fresh(r) && r.records == records
    {
      r := new RecordSet(records);
    }

    /** `getDataSets()`: walks the records and their values, filing each value under its key. */
    method GetDataSets() returns (sets: seq<DataSet>)
      ensures sets == DataSetsOf(SnapshotOf(records))
    {
      ghost var snap := SnapshotOf(records);
      sets := [];
      var i := 0;
      while i < |records|
        invariant 0 <= i <= |records|
        invariant sets == DataSetsOf(snap[..i])
      {
        var time := records[i].date;
        var entries := records[i].values.entries;
        var j := 0;
        while j < |entries|
          invariant 0 <= j <= |entries|
          invariant sets == AddRecord(DataSetsOf(snap[..i]), time, entries[..j])
        {
          var key := entries[j].key;
          ghost var before := sets;
          var k := Find(sets, key);
          if k == |sets| {
            sets := sets + [DataSet(key, [(time, entries[j].value)])];
          } else {
            sets := sets[k := DataSet(key, sets[k].points + [(time, entries[j].value)])];
          }
          assert sets == AddPoint(before, key, (time, entries[j].value));
          assert entries[..j + 1][..j] == entries[..j];
          j := j + 1;
        }
        assert entries[..j] == entries;
        assert snap[..i + 1][..i] == snap[..i];
        i := i + 1;
      }
      assert snap[..i] == snap;
    }
  }
}
