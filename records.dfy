/**
 * Device recordings: a date and a values object. `ImmutableRecord` is what
 * the record manager stores and compresses into one `;`-delimited line of
 * text; `MutableRecord` is filled in by a device before it is stored.
 */
module Records {
  import opened Wrappers
  import opened Js
  import opened RecordValues
  import Text
  import Radix64

  const RECORD_CELL_DELIMITER: char := ';'

  // ---------------------------------------------------------------------
  // The compressed line
  // ---------------------------------------------------------------------

  /** `Math.round(ms / 1000)` for a whole number of milliseconds: halves round up. */
  function RoundSeconds(ms: int): int
  {
    (ms + 500) / 1000
  }

  /**
   * `radix64.encodeInt(Math.round(time / 1000))`: the fewest base-64 digits
   * holding the seconds. A negative or NaN count makes `new Array` throw.
   */
  function EncodeSeconds(date: Time): Result<string>
  {
    if date.NaN? || RoundSeconds(date.n) < 0 then Err("Invalid array length")
    else
      var secs := RoundSeconds(date.n);
      Ok(Radix64.Encode(secs, Radix64.MinDigits(secs)))
  }

  /** `manager.getField({ name, alias: name })`: the field a value is stored under. */
  function FieldFor(fields: seq<Field>, key: string): Result<Field>
  {
    GetField(fields, FieldSearch(Some(key), None, Some(key)))
  }

  /** The cell for one value: the field's alias followed by the value's text. */
  function CompressCell(e: Entry, fields: seq<Field>): Result<string>
  {
    var field :- FieldFor(fields, e.key);
    var text := NumberToString(e.value);
    if RECORD_CELL_DELIMITER in text then Err("Value contains illegal character ';'")
    else Ok(field.alias + text)
  }

  /** The value cells, in property order; the first failing value decides the error. */
  function CompressCells(entries: seq<Entry>, fields: seq<Field>): Result<seq<string>>
  {
    if entries == [] then Ok([])
    else
      var cell :- CompressCell(entries[0], fields);
      var rest :- CompressCells(entries[1..], fields);
      Ok([cell] + rest)
  }

  /** The line `compress` produces for a record with this date and these values. */
  function CompressRecord(date: Time, entries: seq<Entry>, fields: seq<Field>): Result<string>
  {
    var head :- EncodeSeconds(date);
    var cells :- CompressCells(entries, fields);
    Ok(Text.Join([head] + cells, RECORD_CELL_DELIMITER))
  }

  /** `cell.slice(0, 1)`. */
  function CellAlias(cell: string): string
  {
    if |cell| == 0 then "" else cell[..1]
  }

  /** `parseFloat(cell.slice(1))`. */
  function CellValue(cell: string): Number
  {
    ParseFloat(if |cell| == 0 then "" else cell[1..])
  }

  /** The key a cell's value is stored under: the field name, or the alias itself without remapping. */
  function CellKey(cell: string, fields: seq<Field>, remap: bool): Result<string>
  {
    if remap then
      var field :- GetField(fields, FieldSearch(None, None, Some(CellAlias(cell))));
      Ok(field.name)
    else Ok(CellAlias(cell))
  }

  /** Stores the value of each cell in turn into the values `acc`. */
  function DecodeCells(cells: seq<string>, fields: seq<Field>, remap: bool, acc: seq<Entry>): Result<seq<Entry>>
  {
    if cells == [] then Ok(acc)
    else
      var key :- CellKey(cells[0], fields, remap);
      DecodeCells(cells[1..], fields, remap, Assign(acc, key, CellValue(cells[0])))
  }

  /** `new Date(radix64.decodeToInt(cell) * 1000)`. */
  function DecodeDate(cell: string): Time
  {
    match Radix64.DecodeInt(cell)
    case Some(secs) => TimeClip(secs * 1000)
    case None => NaN
  }

  /** The date and values `decompress` rebuilds from a line. */
  function DecompressRecord(line: string, fields: seq<Field>, remap: bool): Result<(Time, seq<Entry>)>
  {
    var cells := Text.Split(line, RECORD_CELL_DELIMITER);
    var values :- DecodeCells(cells[1..], fields, remap, []);
    Ok((DecodeDate(cells[0]), values))
  }

  // ---------------------------------------------------------------------
  // Round trip
  // ---------------------------------------------------------------------

  /**
   * The fields resolve `key` consistently: looking it up as a name or alias
   * finds the field named `key`, whose one-character alias leads back to it.
   */
  predicate Resolvable(fields: seq<Field>, key: string)
  {
    var f := FieldFor(fields, key);
    f.Ok? && f.value.name == key && |f.value.alias| == 1 && f.value.alias[0] != RECORD_CELL_DELIMITER &&
    GetField(fields, FieldSearch(None, None, Some(f.value.alias))) == f
  }

  /** The line `compress` writes for a rounded date that `decompress` reads back as a valid date. */
  lemma SecondsRange(ms: int)
    requires -500 <= ms <= MAX_TIME
    ensures 0 <= RoundSeconds(ms) && RoundSeconds(ms) * 1000 <= MAX_TIME
  {
  }

  lemma NoDelimiterInDigits(s: string)
    requires Radix64.Valid(s)
    ensures RECORD_CELL_DELIMITER !in s
  {
    assert Radix64.Flipped(RECORD_CELL_DELIMITER).None?;
  }

  lemma NoDelimiterInNumber(x: Number)
    ensures RECORD_CELL_DELIMITER !in NumberToString(x)
  {
    var t := NumberToString(x);
    if RECORD_CELL_DELIMITER in t {
      var k :| 0 <= k < |t| && t[k] == RECORD_CELL_DELIMITER;
      NumberStringChars(x, k);
    }
  }

  /** A cell reads back as its value, under its key. */
  lemma CellRoundTrip(e: Entry, fields: seq<Field>)
    requires Resolvable(fields, e.key)
    ensures CompressCell(e, fields).Ok?
    ensures RECORD_CELL_DELIMITER !in CompressCell(e, fields).value
    ensures CellKey(CompressCell(e, fields).value, fields, true) == Ok(e.key)
    ensures CellValue(CompressCell(e, fields).value) == e.value
  {
    var field := FieldFor(fields, e.key).value;
    NoDelimiterInNumber(e.value);
    var cell := field.alias + NumberToString(e.value);
    assert CellAlias(cell) == field.alias;
    assert cell[1..] == NumberToString(e.value);
    NumberStringRoundTrip(e.value);
  }

  /** The next entry's key is not among those already decoded. */
  lemma FreshHead(acc: seq<Entry>, entries: seq<Entry>)
    requires entries != [] && DistinctKeys(acc + entries)
    ensures !HasKey(acc, entries[0].key)
    ensures acc + entries == (acc + [entries[0]]) + entries[1..]
  {
    assert acc + entries == (acc + [entries[0]]) + entries[1..];
    forall x | x in acc ensures x.key != entries[0].key {
      var i :| 0 <= i < |acc| && acc[i] == x;
      assert (acc + entries)[i] == x && (acc + entries)[|acc|] == entries[0];
    }
  }

  lemma CellsRoundTrip(entries: seq<Entry>, fields: seq<Field>, acc: seq<Entry>)
    requires DistinctKeys(acc + entries)
    requires forall e :: e in entries ==> Resolvable(fields, e.key)
    ensures CompressCells(entries, fields).Ok?
    ensures forall k :: 0 <= k < |CompressCells(entries, fields).value| ==>
              RECORD_CELL_DELIMITER !in CompressCells(entries, fields).value[k]
    ensures DecodeCells(CompressCells(entries, fields).value, fields, true, acc) == Ok(acc + entries)
  {
    CellsCompress(entries, fields);
    CellsDecode(entries, fields, acc);
  }

  /** Every value whose key resolves gives a cell, and no cell holds the delimiter. */
  lemma {:induction false} CellsCompress(entries: seq<Entry>, fields: seq<Field>)
    requires forall e :: e in entries ==> Resolvable(fields, e.key)
    ensures CompressCells(entries, fields).Ok?
    ensures forall k :: 0 <= k < |CompressCells(entries, fields).value| ==>
              RECORD_CELL_DELIMITER !in CompressCells(entries, fields).value[k]
    decreases |entries|
  {
    if entries != [] {
      CellRoundTrip(entries[0], fields);
      assert forall e :: e in entries[1..] ==> e in entries;
      CellsCompress(entries[1..], fields);
      var cell := CompressCell(entries[0], fields).value;
      var rest := CompressCells(entries[1..], fields).value;
      var cells := [cell] + rest;
      assert CompressCells(entries, fields) == Ok(cells);
      forall k | 0 <= k < |cells| ensures RECORD_CELL_DELIMITER !in cells[k] {
        if k > 0 {
          assert cells[k] == rest[k - 1];
        }
      }
    }
  }

  /** Decoding the cells after the values `acc` gives back `acc` followed by the values. */
  lemma {:induction false} CellsDecode(entries: seq<Entry>, fields: seq<Field>, acc: seq<Entry>)
    requires DistinctKeys(acc + entries)
    requires forall e :: e in entries ==> Resolvable(fields, e.key)
    requires CompressCells(entries, fields).Ok?
    ensures DecodeCells(CompressCells(entries, fields).value, fields, true, acc) == Ok(acc + entries)
    decreases |entries|
  {
    if entries != [] {
      var e := entries[0];
      CellRoundTrip(e, fields);
      FreshHead(acc, entries);
      AssignShape(acc, e.key, e.value);
      assert forall x :: x in entries[1..] ==> x in entries;
      var cell := CompressCell(e, fields).value;
      assert CompressCells(entries, fields) == Ok([cell] + CompressCells(entries[1..], fields).value);
      CellsDecode(entries[1..], fields, acc + [e]);
      var rest := CompressCells(entries[1..], fields).value;
      assert ([cell] + rest)[1..] == rest;
      assert DecodeCells([cell] + rest, fields, true, acc) == DecodeCells(rest, fields, true, acc + [e]);
    } else {
      assert acc + entries == acc;
    }
  }


  /**
   * `ImmutableRecord.decompress(record.compress(manager), manager)` gives the
   * record's values back, keyed by field name and in the same order, and its
   * date rounded to whole seconds.
   */
  lemma CompressRoundTrip(date: Time, entries: seq<Entry>, fields: seq<Field>)
    requires date.Finite? && date.n >= -500
    requires DistinctKeys(entries)
    requires forall e :: e in entries ==> Resolvable(fields, e.key)
    ensures CompressRecord(date, entries, fields).Ok?
    ensures DecompressRecord(CompressRecord(date, entries, fields).value, fields, true)
            == Ok((Finite(RoundSeconds(date.n) * 1000), entries))
  {
    SecondsRange(date.n);
    var secs := RoundSeconds(date.n);
    var head := Radix64.Encode(secs, Radix64.MinDigits(secs));
    Radix64.EncodeValid(secs, Radix64.MinDigits(secs));
    NoDelimiterInDigits(head);
    assert [] + entries == entries;
    CellsRoundTrip(entries, fields, []);
    var cells := CompressCells(entries, fields).value;
    Text.SplitJoin([head] + cells, RECORD_CELL_DELIMITER);
    assert ([head] + cells)[1..] == cells;
    Radix64.IntRoundTripMinimal(secs);
  }

  // ---------------------------------------------------------------------
  // The record classes
  // ---------------------------------------------------------------------

  class ImmutableRecord {
    const date: Time
    const values: ValueTable

    constructor (date: Time, values: ValueTable)
      ensures this.date == date && this.values == values
    {
      this.date := date;
      this.values := values;
    }

    function IsMutable(): (mutable: bool)
      ensures !mutable
    {
      false
    }

    /** `getDate()`: a fresh copy; here a value, so changing it cannot reach the record. */
    function GetDate(): (t: Time)
      ensures t == date
    {
      date
    }

    /** `getValues()`: a shallow copy of the values, as a value. */
    function GetValues(): (v: seq<Entry>)
      reads values
      ensures v == values.entries
    {
      values.entries
    }

    /** `getValue(fieldId, fallback)`: the stored value, or the fallback when there is none. */
    function GetValue(fieldId: string, fallback: Number): (v: Number)
      reads values
      ensures HasKey(values.entries, fieldId) ==> Entry(fieldId, v) in values.entries
      ensures !HasKey(values.entries, fieldId) ==> v == fallback
    {
      Lookup(GetValues(), fieldId).GetOr(fallback)
    }

    /** `isValid()`: the date is not NaN. */
    predicate IsValid(): (b: bool)
      ensures b <==> date != NaN
    {
      date.Finite?
    }

    /** `compress(manager)`: builds the cells one value at a time, then joins them. */
    method Compress(fields: seq<Field>) returns (r: Result<string>)
      ensures r == CompressRecord(date, values.entries, fields)
    {
      if date.NaN? {
        return Err("Invalid array length");
      }
      var encoded := Radix64.EncodeInt(RoundSeconds(date.n), 0);
      if encoded.Err? {
        return Err("Invalid array length");
      }
      var cells := PushCells(encoded.value, values.entries, fields);
      if cells.Err? {
        return Err(cells.message);
      }
      r := Ok(Text.Join(cells.value, RECORD_CELL_DELIMITER));
    }


    /** `ImmutableRecord.decompress(compressed, manager, doAliasRemap)`. */
    static method Decompress(line: string, fields: seq<Field>, remap: bool) returns (r: Result<ImmutableRecord>)
      ensures r.Err? <==> DecompressRecord(line, fields, remap).Err?
      ensures r.Ok? ==> fresh(r.value) && fresh(r.value.values) &&
                        (r.value.date, r.value.values.entries) == DecompressRecord(line, fields, remap).value
    {
      var cells := Text.Split(line, RECORD_CELL_DELIMITER);
      var secs := Radix64.DecodeToInt(cells[0]);
      var date: Time := if secs.Some? then TimeClip(secs.value * 1000) else NaN;
      var values := new ValueTable([]);
      var failure := DecodeInto(cells[1..], fields, remap, values);
      if failure.Some? {
        return Err(failure.value);
      }
      var record := new ImmutableRecord(date, values);
      r := Ok(record);
    }
  }

  /** Decoding the cells from the first one on: its key fails, or its value is stored and the rest follow. */
  lemma DecodeStep(cells: seq<string>, fields: seq<Field>, remap: bool, acc: seq<Entry>)
    requires cells != []
    ensures CellKey(cells[0], fields, remap).Err? ==> DecodeCells(cells, fields, remap, acc).Err?
    ensures CellKey(cells[0], fields, remap).Ok? ==>
              DecodeCells(cells, fields, remap, acc) ==
              DecodeCells(cells[1..], fields, remap, Assign(acc, CellKey(cells[0], fields, remap).value, CellValue(cells[0])))
  {
  }

  /** The `forEach` of `decompress`: each cell's value is stored under its key, unless a key fails to resolve. */
  method DecodeInto(cells: seq<string>, fields: seq<Field>, remap: bool, values: ValueTable) returns (failure: Option<string>)
    modifies values
    ensures failure.Some? <==> DecodeCells(cells, fields, remap, old(values.entries)).Err?
    ensures failure.None? ==> values.entries == DecodeCells(cells, fields, remap, old(values.entries)).value
  {
    var i := 0;
    assert cells[0..] == cells;
    while i < |cells|
      invariant 0 <= i <= |cells|
      invariant DecodeCells(cells, fields, remap, old(values.entries)) == DecodeCells(cells[i..], fields, remap, values.entries)
    {
      DecodeStep(cells[i..], fields, remap, values.entries);
      var key := CellKey(cells[i], fields, remap);
      if key.Err? {
        return Some(key.message);
      }
      assert cells[i..][1..] == cells[i + 1..];
      values.Set(key.value, CellValue(cells[i]));
      i := i + 1;
    }
    failure := None;
  }

  /** The loop of `compress`: starting from `[head]`, one cell per value, in property order. */
  method PushCells(head: string, entries: seq<Entry>, fields: seq<Field>) returns (r: Result<seq<string>>)
    ensures r == Prefixed([head], CompressCells(entries, fields))
  {
    var cells := [head];
    var i := 0;
    assert entries[0..] == entries;
    while i < |entries|
      invariant 0 <= i <= |entries|
      invariant Prefixed([head], CompressCells(entries, fields)) == Prefixed(cells, CompressCells(entries[i..], fields))
    {
      CellsStep(entries[i..], fields, cells);
      var cell := MakeCell(entries[i], fields);
      if cell.Err? {
        return Err(cell.message);
      }
      assert entries[i..][1..] == entries[i + 1..];
      cells := cells + [cell.value];
      i := i + 1;
    }
    assert entries[i..] == [] && cells + [] == cells;
    r := Ok(cells);
  }

  /** The body of the loop in `compress`: the value's field, then its text, which may not hold ';'. */
  method MakeCell(e: Entry, fields: seq<Field>) returns (cell: Result<string>)
    ensures cell == CompressCell(e, fields)
  {
    var field := FieldFor(fields, e.key);
    if field.Err? {
      return Err(field.message);
    }
    var text := NumberToString(e.value);
    if RECORD_CELL_DELIMITER in text {
      return Err("Value contains illegal character ';'");
    }
    cell := Ok(field.value.alias + text);
  }

  lemma CellsStep(tail: seq<Entry>, fields: seq<Field>, built: seq<string>)
    requires tail != []
    ensures CompressCell(tail[0], fields).Err? ==>
              Prefixed(built, CompressCells(tail, fields)) == Err(CompressCell(tail[0], fields).message)
    ensures CompressCell(tail[0], fields).Ok? ==>
              Prefixed(built, CompressCells(tail, fields)) ==
              Prefixed(built + [CompressCell(tail[0], fields).value], CompressCells(tail[1..], fields))
  {
    var rest := CompressCells(tail[1..], fields);
    if CompressCell(tail[0], fields).Ok? && rest.Ok? {
      var c := CompressCell(tail[0], fields).value;
      assert built + ([c] + rest.value) == (built + [c]) + rest.value;
    }
  }

  /** The outcome of the cells still to come, after the cells already built. */
  function Prefixed(built: seq<string>, rest: Result<seq<string>>): Result<seq<string>>
  {
    if rest.Ok? then Ok(built + rest.value) else rest
  }

  class MutableRecord {
    var date: Time
    const values: ValueTable

    /** `new MutableRecord()`: dated now, with no values. */
    constructor (now: Time)
      ensures date == now && fresh(values) && values.entries == []
    {
      date := now;
      values := new ValueTable([]);
    }

    function IsMutable(): (mutable: bool)
      ensures mutable
    {
      true
    }

    method SetDate(d: Time)
      modifies this
      ensures date == d && unchanged(values)
    {
      date := d;
    }

    /** `addValue(fieldName, value)`: only a number other than NaN is stored. */
    method AddValue(fieldName: string, value: Value) returns (r: Result<()>)
      modifies values
      ensures r.Ok? <==> value.Num? && value.x.Finite?
      ensures r.Ok? ==> values.entries == Assign(old(values.entries), fieldName, value.x)
      ensures r.Err? ==> values.entries == old(values.entries)
    {
      if !value.Num? || value.x.NaN? {
        return Err("Invalid value for field");
      }
      values.Set(fieldName, value.x);
      r := Ok(());
    }

    /**
     * `addValues(values)`: `addValue` for each property in order; the first
     * invalid value throws, and the values before it stay stored.
     */
    method AddValues(props: seq<(string, Value)>) returns (r: Result<()>)
      modifies values
      ensures r.Ok? <==> FirstInvalid(props) == |props|
      ensures values.entries == AssignAll(old(values.entries), props[..FirstInvalid(props)])
    {
      var i := 0;
      while i < |props|
        invariant 0 <= i <= FirstInvalid(props)
        invariant values.entries == AssignAll(old(values.entries), props[..i])
      {
        var added := AddValue(props[i].0, props[i].1);
        if added.Err? {
          return Err(added.message);
        }
        assert props[..i + 1] == props[..i] + [props[i]];
        AssignAllSnoc(old(values.entries), props[..i], props[i].0, props[i].1.x);
        i := i + 1;
      }
      r := Ok(());
    }

    /** `toImmutable()`: a new immutable record with the same date, sharing this values object. */
    method ToImmutable() returns (r: ImmutableRecord)
      ensures fresh(r) && r.date == date && r.values == values
    {
      r := new ImmutableRecord(date, values);
    }
  }

  predicate ValidNumber(v: Value)
  {
    v.Num? && v.x.Finite?
  }

  /** The position of the first property whose value `addValue` rejects, or the length when there is none. */
  function FirstInvalid(props: seq<(string, Value)>): (k: nat)
    ensures k <= |props|
    ensures forall i :: 0 <= i < k ==> ValidNumber(props[i].1)
    ensures k < |props| ==> !ValidNumber(props[k].1)
  {
    if props == [] || !ValidNumber(props[0].1) then 0 else 1 + FirstInvalid(props[1..])
  }

  /** Assigning each property in order (all valid numbers). */
  function AssignAll(entries: seq<Entry>, props: seq<(string, Value)>): seq<Entry>
  {
    if props == [] then entries
    else
      var last := props[|props| - 1];
      Assign(AssignAll(entries, props[..|props| - 1]), last.0, if last.1.Num? then last.1.x else NaN)
  }

  lemma AssignAllSnoc(entries: seq<Entry>, props: seq<(string, Value)>, key: string, x: Number)
    ensures AssignAll(entries, props + [(key, Num(x))]) == Assign(AssignAll(entries, props), key, x)
  {
    assert (props + [(key, Num(x))])[..|props|] == props;
  }
}
