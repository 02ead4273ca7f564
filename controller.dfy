/**
 * `Controller`: the static registry of one model type. `store` replaces the
 * whole id-to-model table; the lookups read it and fail while nothing has
 * been stored.
 */
module Controllers {
  import opened Wrappers
  import opened Js

  /**
   * A stored model: its identity, and its props when it is a
   * `ModelWithProps` (`None` for a plain `Model`).
   */
  datatype Stored = Stored(ref: nat, props: Option<map<string, Value>>)

  /** `o.getProp(key)`: undefined for a key the props lack. */
  function GetProp(props: map<string, Value>, key: string): Value
  {
    if key in props then props[key] else Undefined
  }

  /** The argument forms of `findBy`. */
  datatype FindArg =
    | ByPredicate(accepts: Stored -> Value)
    | ByProp(key: string, value: Value)
    | OtherArg

  /** An id-to-model table in enumeration order. */
  type Table = seq<(string, Stored)>

  predicate UniqueIds(table: Table)
  {
    forall i, j :: 0 <= i < j < |table| ==> table[i].0 != table[j].0
  }

  /** `Object.values(table)`. */
  function Values(table: Table): (r: seq<Stored>)
    ensures |r| == |table| && forall k :: 0 <= k < |r| ==> r[k] == table[k].1
  {
    seq(|table|, k requires 0 <= k < |table| => table[k].1)
  }

  /** `_.filter(models, m => !!accepts(m))`. */
  function Filter(models: seq<Stored>, accepts: Stored -> Value): (r: seq<Stored>)
    ensures |r| <= |models|
    ensures forall k :: 0 <= k < |r| ==> r[k] in models && Truthy(accepts(r[k]))
    ensures forall k :: 0 <= k < |models| && Truthy(accepts(models[k])) ==> models[k] in r
  {
    if models == [] then []
    else (if Truthy(accepts(models[0])) then [models[0]] else []) + Filter(models[1..], accepts)
  }

  /** `_.find(models, accepts)`: the first model the callback returns a truthy value for. */
  function First(models: seq<Stored>, accepts: Stored -> Value): (r: Option<Stored>)
    ensures r.None? <==> forall k :: 0 <= k < |models| ==> !Truthy(accepts(models[k]))
    ensures r.Some? ==> exists k :: 0 <= k < |models| && models[k] == r.value && Truthy(accepts(models[k]))
                                    && forall l :: 0 <= l < k ==> !Truthy(accepts(models[l]))
  {
    if models == [] then None
    else if Truthy(accepts(models[0])) then Some(models[0])
    else
      var r := First(models[1..], accepts);
      if r.Some? then
        var k :| 0 <= k < |models[1..]| && models[1..][k] == r.value && Truthy(accepts(models[1..][k]))
                 && forall l :: 0 <= l < k ==> !Truthy(accepts(models[1..][l]));
        assert models[k + 1] == r.value;
        r
      else r
  }

  /**
   * What `_.find` promises of its result `r`: nothing when no model is
   * accepted, otherwise the earliest accepted model.
   */
  predicate FirstAccepted(models: seq<Stored>, accepts: Stored -> Value, r: Option<Stored>)
  {
    && (r.None? <==> forall k :: 0 <= k < |models| ==> !Truthy(accepts(models[k])))
    && (r.Some? ==> exists k :: 0 <= k < |models| && models[k] == r.value && Truthy(accepts(models[k]))
                                && forall l :: 0 <= l < k ==> !Truthy(accepts(models[l])))
  }

  /** The callback `findBy(key, value)` searches with: a model with props whose prop is `=== value`. */
  function PropEquals(key: string, value: Value): Stored -> Value
  {
    (o: Stored) => Bool(o.props.Some? && StrictEquals(GetProp(o.props.value, key), value))
  }

  /** The message of a lookup made before anything was stored. */
  function NotLoaded(name: string): string
  {
    name + " must be loaded() before calling index()."
  }

  const LOAD_NOT_IMPLEMENTED: string := "Method load() is not implemented."

  class Controller {
    /** `this.name`: the controller's class name. */
    const name: string
    /** `static data`: undefined until `store`. */
    var data: Option<Table>

    constructor (name: string)
      ensures this.name == name && data == None
    {
      this.name := name;
      data := None;
    }

    /** `store(data)`: replaces the whole table. */
    method Store(table: Table)
      requires UniqueIds(table)
      modifies this
      ensures data == Some(table)
    {
      data := Some(table);
    }

    /** `load()`: the base controller has no loader. */
    function Load(): (r: Result<()>)
      ensures r.Err? && r.message == LOAD_NOT_IMPLEMENTED
    {
      Err(LOAD_NOT_IMPLEMENTED)
    }

    /** `indexObject()`. */
    function IndexObject(): (r: Result<Table>)
      reads this
      ensures r.Err? <==> data.None?
      ensures r.Err? ==> r.message == NotLoaded(name)
    {
      if data.None? then Err(NotLoaded(name)) else Ok(data.value)
    }

    /** `index()`: the stored models in table order. */
    function Index(): (r: Result<seq<Stored>>)
      reads this
      ensures r.Err? <==> data.None?
      ensures r.Ok? ==> |r.value| == |data.value| && forall k :: 0 <= k < |r.value| ==> r.value[k] == data.value[k].1
    {
      match IndexObject()
      case Err(message) => Err(message)
      case Ok(table) => Ok(Values(table))
    }

    /** `indexBy(predicate)`: the models whose predicate result is truthy. */
    function IndexBy(accepts: Stored -> Value): (r: Result<seq<Stored>>)
      reads this
      ensures r.Err? <==> data.None?
      ensures r.Ok? ==> forall m :: m in r.value <==> m in Values(data.value) && Truthy(accepts(m))
    {
      match Index()
      case Err(message) => Err(message)
      case Ok(models) => Ok(Filter(models, accepts))
    }

    /** `find(id)`: the model stored under the id, or undefined. */
    function Find(id: string): (r: Result<Option<Stored>>)
      reads this
      ensures r.Err? <==> data.None?
      ensures r.Ok? && r.value.Some? ==> (id, r.value.value) in data.value
      ensures r.Ok? && r.value.None? ==> forall k :: 0 <= k < |data.value| ==> data.value[k].0 != id
    {
      match IndexObject()
      case Err(message) => Err(message)
      case Ok(table) => Ok(Lookup(table, id))
    }

    /**
     * `findBy(...)`: by callback, the first model in index order the callback
     * accepts; by prop, the first model with props whose prop is `=== value`;
     * null for any other argument, which reads nothing.
     */
    function FindBy(arg: FindArg): (r: Result<Option<Stored>>)
      reads this
      ensures arg.OtherArg? ==> r == Ok(None)
      ensures !arg.OtherArg? ==> (r.Err? <==> data.None?)
      ensures arg.ByPredicate? && r.Ok? ==> FirstAccepted(Values(data.value), arg.accepts, r.value)
      ensures arg.ByProp? && r.Ok? ==> FirstAccepted(Values(data.value), PropEquals(arg.key, arg.value), r.value)
      ensures arg.ByProp? && r.Ok? && r.value.Some? ==>
                r.value.value.props.Some? && StrictEquals(GetProp(r.value.value.props.value, arg.key), arg.value)
    {
      match arg
      case OtherArg => Ok(None)
      case ByPredicate(accepts) =>
        (match Index()
         case Err(message) => Err(message)
         case Ok(models) => Ok(First(models, accepts)))
      case ByProp(key, value) =>
        (match Index()
         case Err(message) => Err(message)
         case Ok(models) => Ok(First(models, PropEquals(key, value))))
    }

    /** `exists(id)`: whether `find` gives a model. */
    function Exists(id: string): (r: Result<bool>)
      reads this
      ensures r.Err? <==> data.None?
      ensures r.Ok? ==> (r.value <==> exists k :: 0 <= k < |data.value| && data.value[k].0 == id)
    {
      match Find(id)
      case Err(message) => Err(message)
      case Ok(found) =>
        Ok(found.Some?)
    }
  }

  /** `table[id]`. */
  function Lookup(table: Table, id: string): (r: Option<Stored>)
    ensures r.Some? ==> (id, r.value) in table
    ensures r.None? ==> forall k :: 0 <= k < |table| ==> table[k].0 != id
  {
    if table == [] then None
    else if table[0].0 == id then Some(table[0].1)
    else
      var r := Lookup(table[1..], id);
      if r.None? then
        assert forall k :: 1 <= k < |table| ==> table[k] == table[1..][k - 1];
        r
      else r
  }

  // ---------------------------------------------------------------------
  // Properties
  // ---------------------------------------------------------------------

  /** In a table with unique ids, the model found under an id is the one stored under it. */
  lemma LookupStored(table: Table, k: nat)
    requires UniqueIds(table) && k < |table|
    ensures Lookup(table, table[k].0) == Some(table[k].1)
  {
    var r := Lookup(table, table[k].0);
    if r.Some? {
      var j :| 0 <= j < |table| && table[j] == (table[k].0, r.value);
    }
  }

  /** After `store`, `find` returns the model stored under each id. */
  method StoreThenFind(c: Controller, table: Table, k: nat) returns (r: Result<Option<Stored>>)
    requires UniqueIds(table) && k < |table|
    modifies c
    ensures r == Ok(Some(table[k].1))
  {
    c.Store(table);
    LookupStored(table, k);
    r := c.Find(table[k].0);
  }

  /** Filtering distributes over concatenation, so `indexBy` keeps the accepted models in index order. */
  lemma {:induction false} FilterAppend(a: seq<Stored>, b: seq<Stored>, accepts: Stored -> Value)
    ensures Filter(a + b, accepts) == Filter(a, accepts) + Filter(b, accepts)
  {
    if a != [] {
      assert (a + b)[0] == a[0];
      assert (a + b)[1..] == a[1..] + b;
      FilterAppend(a[1..], b, accepts);
    } else {
      assert a + b == b;
    }
  }

  /** `indexBy` keeps each model exactly as often as the index holds it when accepted, and never otherwise. */
  lemma {:induction false} FilterCounts(models: seq<Stored>, accepts: Stored -> Value, m: Stored)
    ensures multiset(Filter(models, accepts))[m] == if Truthy(accepts(m)) then multiset(models)[m] else 0
  {
    if models != [] {
      FilterCounts(models[1..], accepts, m);
      assert models == [models[0]] + models[1..];
    }
  }
}
