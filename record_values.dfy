/**
 * The values object of a record (`{[field]: number}`) and the recorded
 * fields of a device, with the lookups the record code performs on them.
 */
module RecordValues {
  import opened Wrappers
  import opened Js

  /** One own property of a values object. */
  datatype Entry = Entry(key: string, value: Number)

  /** A recorded field: its name, its numeric id and its one-character alias. */
  datatype Field = Field(name: string, id: int, alias: string)

  predicate DistinctKeys(entries: seq<Entry>)
  {
    forall i, j :: 0 <= i < j < |entries| ==> entries[i].key != entries[j].key
  }

  predicate HasKey(entries: seq<Entry>, key: string)
  {
    exists e :: e in entries && e.key == key
  }

  /** `values[key]`: the property stored under `key`, if any. */
  function Lookup(entries: seq<Entry>, key: string): (r: Option<Number>)
    ensures r.Some? <==> HasKey(entries, key)
    ensures r.Some? ==> Entry(key, r.value) in entries
  {
    if entries == [] then None
    else if entries[0].key == key then Some(entries[0].value)
    else Lookup(entries[1..], key)
  }

  /**
   * `values[key] = value`: an existing property is overwritten where it
   * stands, a new one is added after all the others.
   */
  function Assign(entries: seq<Entry>, key: string, value: Number): seq<Entry>
  {
    if entries == [] then [Entry(key, value)]
    else if entries[0].key == key then [Entry(key, value)] + entries[1..]
    else [entries[0]] + Assign(entries[1..], key, value)
  }

  /** After an assignment the key reads back the value, and every other key reads as before. */
  lemma {:induction false} AssignLookup(entries: seq<Entry>, key: string, value: Number, other: string)
    ensures Lookup(Assign(entries, key, value), key) == Some(value)
    ensures other != key ==> Lookup(Assign(entries, key, value), other) == Lookup(entries, other)
    decreases |entries|
  {
    if entries != [] && entries[0].key != key {
      AssignLookup(entries[1..], key, value, other);
    }
  }

  /** A new key goes after all existing ones, and keys stay distinct. */
  lemma AssignShape(entries: seq<Entry>, key: string, value: Number)
    ensures !HasKey(entries, key) ==> Assign(entries, key, value) == entries + [Entry(key, value)]
    ensures DistinctKeys(entries) ==> DistinctKeys(Assign(entries, key, value))
    ensures forall e :: e in Assign(entries, key, value) ==> e.key == key || e in entries
  {
    AssignMembers(entries, key, value);
    if !HasKey(entries, key) {
      AssignNew(entries, key, value);
    }
    if DistinctKeys(entries) {
      AssignDistinct(entries, key, value);
    }
  }

  lemma {:induction false} AssignMembers(entries: seq<Entry>, key: string, value: Number)
    ensures forall e :: e in Assign(entries, key, value) ==> e.key == key || e in entries
    decreases |entries|
  {
    if entries != [] {
      AssignMembers(entries[1..], key, value);
      assert entries == [entries[0]] + entries[1..];
    }
  }

  lemma {:induction false} AssignNew(entries: seq<Entry>, key: string, value: Number)
    requires !HasKey(entries, key)
    ensures Assign(entries, key, value) == entries + [Entry(key, value)]
    decreases |entries|
  {
    if entries != [] {
      assert entries[0] in entries;
      assert !HasKey(entries[1..], key) by {
        forall e | e in entries[1..] ensures e.key != key { assert e in entries; }
      }
      AssignNew(entries[1..], key, value);
      assert entries == [entries[0]] + entries[1..];
    }
  }

  lemma {:induction false} AssignDistinct(entries: seq<Entry>, key: string, value: Number)
    requires DistinctKeys(entries)
    ensures DistinctKeys(Assign(entries, key, value))
    decreases |entries|
  {
    if entries != [] && entries[0].key != key {
      var rest := Assign(entries[1..], key, value);
      assert DistinctKeys(entries[1..]) by {
        forall i, j | 0 <= i < j < |entries| - 1 ensures entries[1..][i].key != entries[1..][j].key {
          assert entries[1..][i] == entries[i + 1] && entries[1..][j] == entries[j + 1];
        }
      }
      AssignDistinct(entries[1..], key, value);
      AssignMembers(entries[1..], key, value);
      forall j | 0 <= j < |rest| ensures rest[j].key != entries[0].key {
        assert rest[j] in rest;
        if rest[j].key != key {
          var m :| 0 <= m < |entries[1..]| && entries[1..][m] == rest[j];
          assert entries[m + 1] == rest[j];
        }
      }
      assert Assign(entries, key, value) == [entries[0]] + rest;
    } else if entries != [] {
      var out := Assign(entries, key, value);
      forall i, j | 0 <= i < j < |out| ensures out[i].key != out[j].key {
        assert entries[i].key == out[i].key && entries[j].key == out[j].key;
      }
    }
  }


  /** A values object; records hold it by reference, so a record and its immutable copy share it. */
  class ValueTable {
    var entries: seq<Entry>

    constructor (entries: seq<Entry>)
      ensures this.entries == entries
    {
      this.entries := entries;
    }

    method Set(key: string, value: Number)
      modifies this
      ensures entries == Assign(old(entries), key, value)
    {
      entries := Assign(entries, key, value);
    }
  }

  /** A partial field description, as given to `getField`: absent members match nothing. */
  datatype FieldSearch = FieldSearch(name: Option<string>, id: Option<int>, alias: Option<string>)

  predicate Matches(f: Field, search: FieldSearch)
  {
    (search.name.Some? && f.name == search.name.value) ||
    (search.id.Some? && f.id == search.id.value) ||
    (search.alias.Some? && f.alias == search.alias.value)
  }

  /**
   * `RecordManager.getField(search)`: the first field matching the name, the
   * id or the alias of the search; an error when no field matches.
   */
  function GetField(fields: seq<Field>, search: FieldSearch): (r: Result<Field>)
    ensures r.Ok? ==> r.value in fields && Matches(r.value, search)
    ensures r.Ok? ==> exists i :: 0 <= i < |fields| && fields[i] == r.value &&
                       forall j :: 0 <= j < i ==> !Matches(fields[j], search)
    ensures r.Err? <==> forall f :: f in fields ==> !Matches(f, search)
  {
    if fields == [] then Err("Cannot find field")
    else if Matches(fields[0], search) then Ok(fields[0])
    else
      var r := GetField(fields[1..], search);
      if r.Ok? then
        ghost var i :| 0 <= i < |fields[1..]| && fields[1..][i] == r.value &&
                      forall j :: 0 <= j < i ==> !Matches(fields[1..][j], search);
        assert fields[i + 1] == r.value;
        r
      else r
  }

  /** `String.fromCharCode(id + 65)`: the code unit wraps modulo 2^16. */
  function AliasOf(id: int): (alias: string)
    ensures |alias| == 1
    ensures 0 <= id && id + 65 < 0xD800 ==> alias[0] as int == id + 65
  {
    var code := (id + 65) % 0x1_0000;
    if 0xD800 <= code < 0xE000 then "�" else [code as char]
  }
}
