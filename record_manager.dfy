/**
 * The per-device record manager: which records are admitted to memory, how
 * they are stored and flushed, the recorded fields and their aliases, and
 * the ordering and period filtering applied to records read back.
 */
module RecordManagers {
  import opened Wrappers
  import opened Js
  import opened RecordValues
  import opened Records

  const MEMORY_FLUSH_MIN_LENGTH: nat := 10

  /** A record handed to `add`: either kind. */
  datatype AnyRecord = Immutable(imm: ImmutableRecord) | Mutable(mut: MutableRecord)

  function DateOf(record: AnyRecord): Time
    reads if record.Mutable? then {record.mut} else {}
  {
    match record
    case Immutable(r) => r.date
    case Mutable(r) => r.date
  }

  /**
   * The admission rule of `add`: recording must be enabled with exactly
   * `true`, and with a positive interval a record dated less than that many
   * seconds after the latest stored one is discarded. A NaN difference
   * never compares as smaller, so it does not discard.
   */
  predicate Admits(enabled: Value, interval: Number, latest: Option<Time>, date: Time)
  {
    enabled == Bool(true) &&
    !(interval.Finite? && interval.n > 0 && latest.Some? &&
      date.Finite? && latest.value.Finite? && date.n - latest.value.n < interval.n * 1000)
  }

  /** `init_loadFields`: each manifest field `(name, id)` gets the alias `chr(id + 65)`. */
  function LoadedField(m: (string, int)): Field
  {
    Field(m.0, m.1, AliasOf(m.1))
  }

  class RecordManager {
    /** The device options `recording.enabled` and `recording.interval` (seconds). */
    const enabled: Value
    const interval: Number
    var memory: seq<ImmutableRecord>
    var latestRecord: Option<ImmutableRecord>
    var fields: seq<Field>
    /** Whether the flush timer is armed. */
    var flushArmed: bool

    constructor (enabled: Value, interval: Number)
      ensures this.enabled == enabled && this.interval == interval
      ensures memory == [] && latestRecord == None && fields == [] && !flushArmed
    {
      this.enabled := enabled;
      this.interval := interval;
      memory := [];
      latestRecord := None;
      fields := [];
      flushArmed := false;
    }

    function LatestDate(): Option<Time>
      reads this
    {
      if latestRecord.Some? then Some(latestRecord.value.date) else None
    }

    /** `add(record)`: stores the record when the admission rule lets it in, and otherwise changes nothing. */
    method Add(record: AnyRecord)
      modifies this
      ensures fields == old(fields)
      ensures !Admits(enabled, interval, old(LatestDate()), DateOf(record)) ==>
                memory == old(memory) && latestRecord == old(latestRecord) && flushArmed == old(flushArmed)
      ensures Admits(enabled, interval, old(LatestDate()), DateOf(record)) ==>
                |memory| == |old(memory)| + 1 && memory[..|old(memory)|] == old(memory) &&
                latestRecord == Some(memory[|memory| - 1]) &&
                memory[|memory| - 1].date == DateOf(record) &&
                flushArmed == (old(flushArmed) || |memory| >= MEMORY_FLUSH_MIN_LENGTH)
      ensures Admits(enabled, interval, old(LatestDate()), DateOf(record)) && record.Immutable? ==>
                memory[|memory| - 1] == record.imm
      ensures Admits(enabled, interval, old(LatestDate()), DateOf(record)) && record.Mutable? ==>
                fresh(memory[|memory| - 1]) && memory[|memory| - 1].values == record.mut.values
    {
      if enabled != Bool(true) {
        return;
      }
      if interval.Finite? && interval.n > 0 && latestRecord.Some? {
        var date := DateOf(record);
        var latest := latestRecord.value.date;
        if date.Finite? && latest.Finite? && date.n - latest.n < interval.n * 1000 {
          return;
        }
      }
      Store(record);
    }

    /**
     * `store(record)`: a mutable record is first converted to an immutable
     * one sharing its values; the record is appended to memory and becomes
     * the latest, and the flush timer is re-armed once memory holds enough.
     */
    method Store(record: AnyRecord)
      modifies this
      ensures fields == old(fields)
      ensures |memory| == |old(memory)| + 1 && memory[..|old(memory)|] == old(memory)
      ensures latestRecord == Some(memory[|memory| - 1])
      ensures record.Immutable? ==> memory[|memory| - 1] == record.imm
      ensures record.Mutable? ==>
                fresh(memory[|memory| - 1]) &&
                memory[|memory| - 1].date == record.mut.date && memory[|memory| - 1].values == record.mut.values
      ensures flushArmed == (old(flushArmed) || |memory| >= MEMORY_FLUSH_MIN_LENGTH)
    {
      var stored: ImmutableRecord;
      if record.Mutable? {
        stored := record.mut.ToImmutable();
      } else {
        stored := record.imm;
      }
      memory := memory + [stored];
      latestRecord := Some(stored);
      if |memory| >= MEMORY_FLUSH_MIN_LENGTH {
        flushArmed := true;
      }
    }

    /** The flush timer firing: memory is handed over for writing and emptied. */
    method Flush() returns (drained: seq<ImmutableRecord>)
      modifies this
      ensures drained == old(memory) && memory == [] && !flushArmed
      ensures fields == old(fields) && latestRecord == old(latestRecord)
    {
      drained := memory;
      memory := [];
      flushArmed := false;
    }

    /** `init_loadFields`: the fields are rebuilt from the driver manifest, in order. */
    method InitLoadFields(manifest: seq<(string, int)>)
      modifies this
      ensures |fields| == |manifest|
      ensures forall i :: 0 <= i < |manifest| ==> fields[i] == LoadedField(manifest[i])
      ensures memory == old(memory) && latestRecord == old(latestRecord)
    {
      fields := [];
      var i := 0;
      while i < |manifest|
        invariant 0 <= i <= |manifest| && |fields| == i
        invariant forall k :: 0 <= k < i ==> fields[k] == LoadedField(manifest[k])
        invariant memory == old(memory) && latestRecord == old(latestRecord)
      {
        fields := fields + [LoadedField(manifest[i])];
        i := i + 1;
      }
    }
  }

  /**
   * Fields loaded from a manifest with distinct ids small enough for a plain
   * one-character alias, and names that are not one character long, resolve
   * every field name consistently, so `compress` and `decompress` round-trip
   * values stored under those names.
   */
  lemma LoadedFieldsResolve(manifest: seq<(string, int)>, k: nat)
    requires forall i :: 0 <= i < |manifest| ==> 0 <= manifest[i].1 && manifest[i].1 + 65 < 0xD800
    requires forall i, j :: 0 <= i < j < |manifest| ==> manifest[i].1 != manifest[j].1
    requires forall i :: 0 <= i < |manifest| ==> |manifest[i].0| != 1
    requires k < |manifest|
    ensures Resolvable(seq(|manifest|, i requires 0 <= i < |manifest| => LoadedField(manifest[i])), manifest[k].0)
  {
    var fields := seq(|manifest|, i requires 0 <= i < |manifest| => LoadedField(manifest[i]));
    var key := manifest[k].0;
    assert Matches(fields[k], FieldSearch(Some(key), None, Some(key)));
    var f := FieldFor(fields, key);
    var j :| 0 <= j < |fields| && fields[j] == f.value;
    assert |fields[j].alias| == 1;
    assert fields[j].name == key;
    var byAlias := GetField(fields, FieldSearch(None, None, Some(fields[j].alias)));
    assert Matches(fields[j], FieldSearch(None, None, Some(fields[j].alias)));
    var m :| 0 <= m < |fields| && fields[m] == byAlias.value;
    assert AliasOf(manifest[m].1)[0] as int == manifest[m].1 + 65;
    assert AliasOf(manifest[j].1)[0] as int == manifest[j].1 + 65;
    assert m == j;
  }

  // ---------------------------------------------------------------------
  // Sorting and period filtering
  // ---------------------------------------------------------------------

  datatype SortMode = TimeAscending | TimeDescending

  predicate Dated(records: seq<ImmutableRecord>)
  {
    forall i :: 0 <= i < |records| ==> records[i].date.Finite?
  }

  /** The sort key: the time, negated for a descending sort. */
  function Key(r: ImmutableRecord, mode: SortMode): int
    requires r.date.Finite?
  {
    if mode == TimeAscending then r.date.n else -r.date.n
  }

  predicate SortedBy(records: seq<ImmutableRecord>, mode: SortMode)
    requires Dated(records)
  {
    forall i, j :: 0 <= i < j < |records| ==> Key(records[i], mode) <= Key(records[j], mode)
  }

  /** Places `r` in front of the first record it sorts strictly before. */
  function Insert(r: ImmutableRecord, sorted: seq<ImmutableRecord>, mode: SortMode): (out: seq<ImmutableRecord>)
    requires r.date.Finite? && Dated(sorted) && SortedBy(sorted, mode)
    ensures Dated(out) && SortedBy(out, mode)
    ensures |out| == |sorted| + 1 && (out[0] == r || (sorted != [] && out[0] == sorted[0]))
  {
    if sorted == [] then [r]
    else if Key(r, mode) < Key(sorted[0], mode) then
      SortedCons(r, sorted, mode);
      [r] + sorted
    else
      SortedTail(sorted, mode);
      var rest := Insert(r, sorted[1..], mode);
      assert sorted == [sorted[0]] + sorted[1..];
      SortedCons(sorted[0], rest, mode);
      [sorted[0]] + rest
  }

  /** Inserting adds `r` and loses nothing. */
  lemma {:induction false} InsertPermutes(r: ImmutableRecord, sorted: seq<ImmutableRecord>, mode: SortMode)
    requires r.date.Finite? && Dated(sorted) && SortedBy(sorted, mode)
    ensures multiset(Insert(r, sorted, mode)) == multiset(sorted) + multiset{r}
    decreases |sorted|
  {
    if sorted != [] && Key(r, mode) >= Key(sorted[0], mode) {
      SortedTail(sorted, mode);
      InsertPermutes(r, sorted[1..], mode);
      assert sorted == [sorted[0]] + sorted[1..];
    }
  }

  lemma SortedTail(records: seq<ImmutableRecord>, mode: SortMode)
    requires records != [] && Dated(records) && SortedBy(records, mode)
    ensures Dated(records[1..]) && SortedBy(records[1..], mode)
  {
    assert forall i :: 0 <= i < |records| - 1 ==> records[1..][i] == records[i + 1];
  }

  lemma SortedCons(x: ImmutableRecord, records: seq<ImmutableRecord>, mode: SortMode)
    requires x.date.Finite? && Dated(records) && SortedBy(records, mode)
    requires records != [] ==> Key(x, mode) <= Key(records[0], mode)
    ensures Dated([x] + records) && SortedBy([x] + records, mode)
  {
    var out := [x] + records;
    assert forall i :: 1 <= i < |out| ==> out[i] == records[i - 1];
    forall i, j | 0 <= i < j < |out|
      ensures Key(out[i], mode) <= Key(out[j], mode)
    {
      if i == 0 {
        assert Key(records[0], mode) <= Key(records[j - 1], mode);
      }
    }
  }

  /**
   * `sort(records, mode)`: the records ordered by time, ascending or
   * descending. Only the ordering is modelled: records with equal times may
   * end up in any order in the source, whose comparator never answers 0.
   */
  function SortByTime(records: seq<ImmutableRecord>, mode: SortMode): (out: seq<ImmutableRecord>)
    requires Dated(records)
    ensures multiset(out) == multiset(records)
    ensures Dated(out) && SortedBy(out, mode)
  {
    if records == [] then []
    else
      assert records == records[..|records| - 1] + [records[|records| - 1]];
      var sorted := SortByTime(records[..|records| - 1], mode);
      InsertPermutes(records[|records| - 1], sorted, mode);
      Insert(records[|records| - 1], sorted, mode)
  }

  predicate InPeriod(r: ImmutableRecord, lo: int, hi: int)
  {
    r.date.Finite? && lo <= r.date.n <= hi
  }

  /** `records.filter(...)`: the records inside the period, in their order. */
  function Within(records: seq<ImmutableRecord>, lo: int, hi: int): (out: seq<ImmutableRecord>)
    ensures forall r :: r in out ==> r in records && InPeriod(r, lo, hi)
    ensures forall r :: r in records && InPeriod(r, lo, hi) ==> r in out
  {
    if records == [] then []
    else
      var rest := Within(records[1..], lo, hi);
      assert forall r :: r in records ==> r == records[0] || r in records[1..];
      if InPeriod(records[0], lo, hi) then [records[0]] + rest else rest
  }

  /**
   * The filter distributes over concatenation: the records read from
   * several day files are filtered file by file, and a single record is
   * kept exactly when it lies in the period.
   */
  lemma {:induction false} WithinAppend(a: seq<ImmutableRecord>, b: seq<ImmutableRecord>, lo: int, hi: int)
    ensures Within(a + b, lo, hi) == Within(a, lo, hi) + Within(b, lo, hi)
    ensures |a| == 1 ==> Within(a, lo, hi) == (if InPeriod(a[0], lo, hi) then a else [])
    decreases |a|
  {
    if a == [] {
      assert a + b == b;
    } else {
      var head: seq<ImmutableRecord> := if InPeriod(a[0], lo, hi) then [a[0]] else [];
      var tail := a[1..];
      RecordsAssoc([a[0]], tail, b);
      assert [a[0]] + tail == a;
      WithinCons(a[0], tail + b, lo, hi);
      WithinCons(a[0], tail, lo, hi);
      WithinAppend(tail, b, lo, hi);
      RecordsAssoc(head, Within(tail, lo, hi), Within(b, lo, hi));
      if |a| == 1 {
        assert tail == [];
      }
    }
  }

  lemma WithinCons(x: ImmutableRecord, rest: seq<ImmutableRecord>, lo: int, hi: int)
    ensures Within([x] + rest, lo, hi) == (if InPeriod(x, lo, hi) then [x] else []) + Within(rest, lo, hi)
  {
    assert ([x] + rest)[0] == x;
    assert ([x] + rest)[1..] == rest;
  }

  lemma RecordsAssoc(a: seq<ImmutableRecord>, b: seq<ImmutableRecord>, c: seq<ImmutableRecord>)
    ensures (a + b) + c == a + (b + c)
  {
  }

  /** `t` lies between the two bounds, whichever order they come in. */
  predicate Between(t: int, a: int, b: int)
  {
    a <= t <= b || b <= t <= a
  }

  /**
   * `readPeriod(start, end)` once the day files are read (`read` holds the
   * records they gave): both dates must be valid, reversed bounds are
   * swapped, and exactly the records inside the closed period are returned.
   */
  function ReadPeriod(start: Time, end: Time, read: seq<ImmutableRecord>): (r: Result<seq<ImmutableRecord>>)
    ensures r.Err? <==> start.NaN? || end.NaN?
    ensures r.Ok? ==> forall x :: x in r.value ==>
              x in read && x.date.Finite? && Between(x.date.n, start.n, end.n)
    ensures r.Ok? ==> forall x :: x in read && x.date.Finite? && Between(x.date.n, start.n, end.n) ==> x in r.value
  {
    if start.NaN? then Err("Invalid start date")
    else if end.NaN? then Err("Invalid end date")
    else
      var lo := if start.n <= end.n then start.n else end.n;
      var hi := if start.n <= end.n then end.n else start.n;
      Ok(Within(read, lo, hi))
  }
}
