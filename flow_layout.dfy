/**
 * The layout a flow block type declares (its parameter and statement
 * slots, its connections and output), the normalisation `extend` applies
 * to it, the case-insensitive slot lookup, and `serialize`.
 */
module FlowLayouts {
  import opened Wrappers
  import opened Js
  import Text

  /** An entry of a parameter's `options`: a model instance, or a `{value, label}` object. */
  datatype Opt =
    | ModelRef(modelId: Value, name: Value)
    | Choice(value: Value, labelText: Value)

  /**
   * A parameter or statement slot as the layout object holds it. `options`
   * is None when the property is not an array.
   */
  datatype RawSlot = RawSlot(id: Value, slotType: Value, options: Option<seq<Opt>>)

  datatype Connections = Connections(top: Value, bottom: Value)

  datatype Output = Output(outType: Value)

  /**
   * A layout object. A None property is one that is missing or of the wrong
   * kind (not an array, not a plain object).
   */
  datatype RawLayout = RawLayout(
    connections: Option<Connections>,
    parameters: Option<seq<RawSlot>>,
    statements: Option<seq<RawSlot>>,
    output: Option<Output>,
    helpUrl: Value)

  // ---------------------------------------------------------------------
  // extend
  // ---------------------------------------------------------------------

  predicate ValidParameter(p: RawSlot) { p.id.Str? && p.slotType.Str? }

  predicate ValidStatement(s: RawSlot) { s.id.Str? }

  /** `parameters.filter(p => typeof p.id === 'string' && typeof p.type === 'string')` */
  function KeepParameters(ps: seq<RawSlot>): (r: seq<RawSlot>)
    ensures |r| <= |ps|
    ensures forall p :: p in r <==> p in ps && ValidParameter(p)
  {
    if ps == [] then []
    else KeepParameters(ps[..|ps| - 1]) + (if ValidParameter(ps[|ps| - 1]) then [ps[|ps| - 1]] else [])
  }

  /** `statements.filter(s => typeof s.id === 'string')` */
  function KeepStatements(ss: seq<RawSlot>): (r: seq<RawSlot>)
    ensures |r| <= |ss|
    ensures forall s :: s in r <==> s in ss && ValidStatement(s)
  {
    if ss == [] then []
    else KeepStatements(ss[..|ss| - 1]) + (if ValidStatement(ss[|ss| - 1]) then [ss[|ss| - 1]] else [])
  }

  /** `c ??= !output.type; c = !!c` */
  function ConnectionFlag(c: Value, output: Output): Value
  {
    if Nullish(c) then Bool(!Truthy(output.outType)) else Bool(Truthy(c))
  }

  /** The layout `extend` leaves behind. */
  function Extended(json: RawLayout): RawLayout
  {
    var statements := json.statements.GetOr([]);
    var parameters := json.parameters.GetOr([]);
    var output := json.output.GetOr(Output(Undefined));
    var connections := json.connections.GetOr(Connections(Undefined, Undefined));
    RawLayout(
      Some(Connections(ConnectionFlag(connections.top, output), ConnectionFlag(connections.bottom, output))),
      Some(KeepParameters(parameters)),
      Some(KeepStatements(statements)),
      Some(output),
      json.helpUrl)
  }

  /** The shape `Required<IFlowBlockLayout>` promises. */
  predicate IsExtended(json: RawLayout)
  {
    && json.statements.Some? && json.parameters.Some?
    && json.output.Some? && json.connections.Some?
    && json.connections.value.top.Bool? && json.connections.value.bottom.Bool?
    && (forall p :: p in json.parameters.value ==> ValidParameter(p))
    && (forall s :: s in json.statements.value ==> ValidStatement(s))
  }

  /**
   * After `extend` the arrays and objects exist, both connection flags are
   * booleans and every remaining slot has the id (and type) it needs.
   */
  lemma ExtendedShape(json: RawLayout)
    ensures IsExtended(Extended(json))
  {
  }

  /**
   * A connection flag the layout leaves unset defaults to "the output has no
   * type"; a flag it sets keeps its truthiness.
   */
  lemma ConnectionDefaults(json: RawLayout)
    ensures var e := Extended(json).connections.value;
            var hasType := json.output.Some? && Truthy(json.output.value.outType);
            && (json.connections.None? ==> e.top == Bool(!hasType) && e.bottom == Bool(!hasType))
            && (json.connections.Some? && Nullish(json.connections.value.top) ==> e.top == Bool(!hasType))
            && (json.connections.Some? && !Nullish(json.connections.value.top) ==> e.top == Bool(Truthy(json.connections.value.top)))
  {
  }

  /** The filters keep exactly the valid slots, and concatenation commutes with them, so order is kept. */
  lemma SlotsAssoc(a: seq<RawSlot>, b: seq<RawSlot>, c: seq<RawSlot>)
    ensures (a + b) + c == a + (b + c)
  {
  }

  lemma {:induction false} KeepParametersAppend(a: seq<RawSlot>, b: seq<RawSlot>)
    ensures KeepParameters(a + b) == KeepParameters(a) + KeepParameters(b)
    decreases |b|
  {
    if b == [] {
      assert a + b == a;
    } else {
      var n := |b| - 1;
      var tail := if ValidParameter(b[n]) then [b[n]] else [];
      assert (a + b)[..|a + b| - 1] == a + b[..n];
      assert (a + b)[|a + b| - 1] == b[n];
      KeepParametersAppend(a, b[..n]);
      assert KeepParameters(a + b) == KeepParameters(a + b[..n]) + tail;
      SlotsAssoc(KeepParameters(a), KeepParameters(b[..n]), tail);
    }
  }

  lemma {:induction false} KeepStatementsAppend(a: seq<RawSlot>, b: seq<RawSlot>)
    ensures KeepStatements(a + b) == KeepStatements(a) + KeepStatements(b)
    decreases |b|
  {
    if b == [] {
      assert a + b == a;
    } else {
      var n := |b| - 1;
      var tail := if ValidStatement(b[n]) then [b[n]] else [];
      assert (a + b)[..|a + b| - 1] == a + b[..n];
      assert (a + b)[|a + b| - 1] == b[n];
      KeepStatementsAppend(a, b[..n]);
      assert KeepStatements(a + b) == KeepStatements(a + b[..n]) + tail;
      SlotsAssoc(KeepStatements(a), KeepStatements(b[..n]), tail);
    }
  }

  lemma {:induction false} KeepParametersValid(ps: seq<RawSlot>)
    requires forall p :: p in ps ==> ValidParameter(p)
    ensures KeepParameters(ps) == ps
    decreases |ps|
  {
    if ps != [] {
      KeepParametersValid(ps[..|ps| - 1]);
    }
  }

  lemma {:induction false} KeepStatementsValid(ss: seq<RawSlot>)
    requires forall s :: s in ss ==> ValidStatement(s)
    ensures KeepStatements(ss) == ss
    decreases |ss|
  {
    if ss != [] {
      var init := ss[..|ss| - 1];
      assert forall s :: s in init ==> s in ss;
      KeepStatementsValid(init);
      assert ss == init + [ss[|ss| - 1]];
    }
  }

  /** Applying `extend` to its own output changes nothing. */
  lemma ExtendIdempotent(json: RawLayout)
    ensures Extended(Extended(json)) == Extended(json)
  {
    var e := Extended(json);
    KeepParametersValid(e.parameters.value);
    KeepStatementsValid(e.statements.value);
  }

  // ---------------------------------------------------------------------
  // getInputOrFail
  // ---------------------------------------------------------------------

  /** `input.id.toUpperCase() === id.toUpperCase()` (a slot without a string id never matches). */
  predicate SlotMatches(s: RawSlot, id: string)
  {
    s.id.Str? && Text.SameIgnoringCase(s.id.s, id)
  }

  predicate Declared(slots: seq<RawSlot>, id: string)
  {
    exists k :: 0 <= k < |slots| && SlotMatches(slots[k], id)
  }

  /** `inputs.find(...) ?? null`: the first slot whose id equals `id` ignoring case. */
  function FindSlot(slots: seq<RawSlot>, id: string): (r: Option<RawSlot>)
    ensures r.None? <==> !Declared(slots, id)
    ensures r.Some? ==> exists k :: 0 <= k < |slots| && slots[k] == r.value && SlotMatches(r.value, id)
                                     && forall j :: 0 <= j < k ==> !SlotMatches(slots[j], id)
  {
    if slots == [] then None
    else if SlotMatches(slots[0], id) then Some(slots[0])
    else
      var r := FindSlot(slots[1..], id);
      assert Declared(slots, id) <==> Declared(slots[1..], id) by {
        if Declared(slots, id) {
          var k :| 0 <= k < |slots| && SlotMatches(slots[k], id);
          assert slots[1..][k - 1] == slots[k];
        }
        if Declared(slots[1..], id) {
          var k :| 0 <= k < |slots[1..]| && SlotMatches(slots[1..][k], id);
          assert slots[k + 1] == slots[1..][k];
        }
      }
      if r.Some? then
        assert exists k :: 0 <= k < |slots| && slots[k] == r.value && SlotMatches(r.value, id)
                           && forall j :: 0 <= j < k ==> !SlotMatches(slots[j], id) by {
          var k :| 0 <= k < |slots[1..]| && slots[1..][k] == r.value && SlotMatches(r.value, id)
                   && forall j :: 0 <= j < k ==> !SlotMatches(slots[1..][j], id);
          assert slots[k + 1] == r.value;
          forall j | 0 <= j < k + 1 ensures !SlotMatches(slots[j], id) {
            if j > 0 { assert slots[j] == slots[1..][j - 1]; }
          }
        }
        r
      else r
  }

  /**
   * `slots.find(s => s.id.toUpperCase() === id.toUpperCase())` over slots
   * that were never filtered: `toUpperCase` is called on each slot up to the
   * first match, and a slot whose id is not a string has no such method, so
   * reaching one throws a `TypeError`.
   */
  function FindOrThrow(slots: seq<RawSlot>, id: string): (r: Result<Option<RawSlot>>)
    ensures r.Ok? ==> r.value == FindSlot(slots, id)
  {
    if slots == [] then Ok(None)
    else if !slots[0].id.Str? then Err("s.id.toUpperCase is not a function")
    else if SlotMatches(slots[0], id) then Ok(Some(slots[0]))
    else FindOrThrow(slots[1..], id)
  }

  /** The lookup throws exactly when a slot without a string id comes before every match. */
  lemma {:induction false} FindOrThrowMeaning(slots: seq<RawSlot>, id: string)
    ensures FindOrThrow(slots, id).Err? <==>
            exists k :: 0 <= k < |slots| && !slots[k].id.Str? && forall j :: 0 <= j < k ==> !SlotMatches(slots[j], id)
    decreases |slots|
  {
    if slots != [] && slots[0].id.Str? && !SlotMatches(slots[0], id) {
      var tail := slots[1..];
      FindOrThrowMeaning(tail, id);
      if k :| 0 <= k < |slots| && !slots[k].id.Str? && forall j :: 0 <= j < k ==> !SlotMatches(slots[j], id) {
        assert k > 0 && tail[k - 1] == slots[k];
        forall j | 0 <= j < k - 1 ensures !SlotMatches(tail[j], id) {
          assert tail[j] == slots[j + 1];
        }
      }
      if k :| 0 <= k < |tail| && !tail[k].id.Str? && forall j :: 0 <= j < k ==> !SlotMatches(tail[j], id) {
        assert slots[k + 1] == tail[k];
        forall j | 0 <= j < k + 1 ensures !SlotMatches(slots[j], id) {
          if j > 0 { assert slots[j] == tail[j - 1]; }
        }
      }
    }
  }

  /** Slots whose ids are all strings, as `extend` leaves them, never make the lookup throw. */
  lemma {:induction false} StringIdsNeverThrow(slots: seq<RawSlot>, id: string)
    requires forall k :: 0 <= k < |slots| ==> slots[k].id.Str?
    ensures FindOrThrow(slots, id) == Ok(FindSlot(slots, id))
    decreases |slots|
  {
    if slots != [] && !SlotMatches(slots[0], id) {
      StringIdsNeverThrow(slots[1..], id);
    }
  }

  /** Lookup ignores the case of the query. */
  lemma FindSlotIgnoresCase(slots: seq<RawSlot>, a: string, b: string)
    requires Text.SameIgnoringCase(a, b)
    ensures FindSlot(slots, a) == FindSlot(slots, b)
  {
  }

  // ---------------------------------------------------------------------
  // serialize
  // ---------------------------------------------------------------------

  /** A model becomes `{value: model.id, label: model name}`; other options stay. */
  function SerializedOpt(o: Opt): (r: Opt)
    ensures r.Choice?
    ensures o.Choice? ==> r == o
    ensures o.ModelRef? ==> r.value == o.modelId && r.labelText == o.name
  {
    match o
    case ModelRef(id, name) => Choice(id, name)
    case Choice(_, _) => o
  }

  function SerializedOpts(os: seq<Opt>): (r: seq<Opt>)
    ensures |r| == |os|
    ensures forall i :: 0 <= i < |os| ==> r[i] == SerializedOpt(os[i])
  {
    if os == [] then [] else [SerializedOpt(os[0])] + SerializedOpts(os[1..])
  }

  function SerializedSlot(p: RawSlot): RawSlot
  {
    if p.options.Some? then p.(options := Some(SerializedOpts(p.options.value))) else p
  }

  function SerializedSlots(ps: seq<RawSlot>): (r: seq<RawSlot>)
    ensures |r| == |ps|
    ensures forall i :: 0 <= i < |ps| ==> r[i] == SerializedSlot(ps[i])
  {
    if ps == [] then [] else [SerializedSlot(ps[0])] + SerializedSlots(ps[1..])
  }

  function Serialized(json: RawLayout): RawLayout
    requires json.parameters.Some?
  {
    json.(parameters := Some(SerializedSlots(json.parameters.value)))
  }

  /**
   * `serialize` leaves no model among any parameter's options, turns each
   * model into its `{value, label}` pair in place, keeps every other option,
   * and changes nothing but the options.
   */
  lemma SerializedFacts(json: RawLayout)
    requires json.parameters.Some?
    ensures var s := Serialized(json);
            && s.parameters.Some? && |s.parameters.value| == |json.parameters.value|
            && s.(parameters := json.parameters) == json
            && (forall i :: 0 <= i < |json.parameters.value| ==>
                  var p := json.parameters.value[i];
                  var q := s.parameters.value[i];
                  && q.id == p.id && q.slotType == p.slotType
                  && q.options.Some? == p.options.Some?
                  && (q.options.Some? ==>
                        && |q.options.value| == |p.options.value|
                        && forall k :: 0 <= k < |p.options.value| ==>
                             && q.options.value[k].Choice?
                             && (p.options.value[k].Choice? ==> q.options.value[k] == p.options.value[k])
                             && (p.options.value[k].ModelRef? ==>
                                   q.options.value[k] == Choice(p.options.value[k].modelId, p.options.value[k].name))))
  {
  }

  /** Serializing twice is serializing once. */
  lemma SerializedIdempotent(json: RawLayout)
    requires json.parameters.Some?
    ensures Serialized(Serialized(json)) == Serialized(json)
  {
    var once := SerializedSlots(json.parameters.value);
    forall i | 0 <= i < |once| ensures SerializedSlot(once[i]) == once[i] {
      if once[i].options.Some? {
        assert SerializedOpts(once[i].options.value) == once[i].options.value;
      }
    }
    assert SerializedSlots(once) == once;
  }

  /** Serializing keeps a layout `extend` produced in that shape. */
  lemma SerializedKeepsShape(json: RawLayout)
    requires IsExtended(json)
    ensures IsExtended(Serialized(json))
  {
    var ps := json.parameters.value;
    forall p | p in SerializedSlots(ps) ensures ValidParameter(p) {
      var i :| 0 <= i < |ps| && SerializedSlots(ps)[i] == p;
      assert ps[i] in ps;
    }
  }

  class FlowBlockLayout {
    var json: RawLayout

    ghost predicate Valid()
      reads this
    {
      IsExtended(json)
    }

    /** `this.json = this.extend(json)`: the given object, normalised. */
    constructor (raw: RawLayout)
      ensures json == Extended(raw)
      ensures Valid()
    {
      json := raw;
      new;
      Extend();
    }

    /** `extend`: defaults, boolean coercion and filters, applied one after the other to the held object. */
    method Extend()
      modifies this
      ensures json == Extended(old(json))
      ensures Valid()
    {
      if json.statements.None? { json := json.(statements := Some([])); }
      if json.parameters.None? { json := json.(parameters := Some([])); }
      if json.output.None? { json := json.(output := Some(Output(Undefined))); }
      if json.connections.None? { json := json.(connections := Some(Connections(Undefined, Undefined))); }
      var output := json.output.value;
      var c := json.connections.value;
      if Nullish(c.top) { c := c.(top := Bool(!Truthy(output.outType))); }
      c := c.(top := Bool(Truthy(c.top)));
      if Nullish(c.bottom) { c := c.(bottom := Bool(!Truthy(output.outType))); }
      c := c.(bottom := Bool(Truthy(c.bottom)));
      json := json.(connections := Some(c));
      json := json.(parameters := Some(KeepParameters(json.parameters.value)));
      json := json.(statements := Some(KeepStatements(json.statements.value)));
      ExtendedShape(old(json));
    }

    function GetParameters(): (r: seq<RawSlot>)
      reads this
      requires Valid()
      ensures forall p :: p in r ==> ValidParameter(p)
    {
      json.parameters.value
    }

    function GetStatements(): (r: seq<RawSlot>)
      reads this
      requires Valid()
      ensures forall s :: s in r ==> ValidStatement(s)
    {
      json.statements.value
    }

    /** The first declared parameter whose id equals `id` ignoring case, or null. */
    function GetParameterOrFail(id: string): (r: Option<RawSlot>)
      reads this
      requires Valid()
      ensures r.None? <==> !Declared(GetParameters(), id)
      ensures r.Some? ==> r.value in GetParameters() && Text.SameIgnoringCase(r.value.id.s, id)
      ensures r.Some? ==> exists k :: 0 <= k < |GetParameters()| && GetParameters()[k] == r.value
                                       && forall j :: 0 <= j < k ==> !SlotMatches(GetParameters()[j], id)
    {
      FindSlot(GetParameters(), id)
    }

    /** The first declared statement whose id equals `id` ignoring case, or null. */
    function GetStatementOrFail(id: string): (r: Option<RawSlot>)
      reads this
      requires Valid()
      ensures r.None? <==> !Declared(GetStatements(), id)
      ensures r.Some? ==> r.value in GetStatements() && Text.SameIgnoringCase(r.value.id.s, id)
      ensures r.Some? ==> exists k :: 0 <= k < |GetStatements()| && GetStatements()[k] == r.value
                                       && forall j :: 0 <= j < k ==> !SlotMatches(GetStatements()[j], id)
    {
      FindSlot(GetStatements(), id)
    }

    /**
     * `serialize`: a shallow copy whose parameters have their options
     * rewritten. The parameter objects are shared with the layout, so the
     * layout's own parameters change with them.
     */
    method Serialize() returns (r: RawLayout)
      requires Valid()
      modifies this
      ensures r == Serialized(old(json)) && json == r
      ensures Valid()
    {
      SerializedKeepsShape(json);
      var copy := json;
      // `param.options = …` rewrites the parameter objects the layout shares with the copy
      json := json.(parameters := Some(SerializedSlots(json.parameters.value)));
      r := copy.(parameters := json.parameters);
    }
  }
}
