/**
 * The flow runtime: the graph of block contexts built from a flow's script.
 * `FlowContext` holds the id map shared with `Flow`; a `FlowBlockContext`
 * resolves its parent through that map, walks its ancestors for handlers
 * and variables, and owns one context per statement and per parameter.
 * Block bodies are extension code: their outcome is a parameter.
 */
module FlowRuntime {
  import opened Wrappers
  import opened Js
  import opened FlowScripts
  import opened Models
  import opened TaskSpec
  import Tasks

  /** How a block body's `run` ends: with a value, or by throwing (or rejecting). */
  datatype Outcome = Returned(value: Value) | Threw

  /**
   * The extension code the runtime calls: each block type's `run`, and
   * whether that run stops the statement it runs in (by calling its
   * `stopExecution`).
   */
  datatype Bodies = Bodies(run: BlockDef -> Outcome, stops: BlockDef -> bool)

  /** A layout parameter's `type`: one type name, or a list of them. */
  datatype ParamType = One(name: string) | Many(names: seq<string>)

  /** A listener a block attached with `listen`. */
  datatype Attachment = Attachment(model: Model, eventName: string, callback: Callback)

  /** `flowCtx.flow.getId()` etc.: a flow task's `ctx`. */
  datatype TaskCtx = TaskCtx(block: BlockRef, flowId: int)

  const FLOW_TASK: string := "FLOW_TASK"
  const CUSTOM: string := "CUSTOM"

  function Get(m: map<string, Value>, key: string): Value
  {
    if key in m then m[key] else Undefined
  }

  /** What `execute()` resolves to: the run's value, or undefined when it threw. */
  function ExecResult(bodies: Bodies, def: BlockDef): (v: Value)
    ensures bodies.run(def).Threw? ==> v.Undefined?
    ensures bodies.run(def).Returned? ==> v == bodies.run(def).value
  {
    match bodies.run(def)
    case Returned(v) => v
    case Threw => Undefined
  }

  // ---------------------------------------------------------------------
  // The script as a graph
  // ---------------------------------------------------------------------

  /** `script.blocks.find(b => b.id === id)`, as an index. */
  function FindDef(script: seq<BlockDef>, id: string): (r: Option<nat>)
    ensures r.None? <==> forall j :: 0 <= j < |script| ==> script[j].id != id
    ensures r.Some? ==> r.value < |script| && script[r.value].id == id &&
                        forall j :: 0 <= j < r.value ==> script[j].id != id
  {
    if script == [] then None
    else if script[0].id == id then Some(0)
    else match FindDef(script[1..], id)
      case None => None
      case Some(i) => Some(i + 1)
  }

  /**
   * Every definition carrying a block's parent id comes after the block, so
   * following parent links always moves forward and ends.
   */
  predicate ParentsAfter(script: seq<BlockDef>)
  {
    forall i, j :: 0 <= i <= j < |script| ==> script[i].id != script[j].parent
  }

  predicate UniqueIds(script: seq<BlockDef>)
  {
    forall i, j :: 0 <= i < j < |script| ==> script[i].id != script[j].id
  }

  /** The walk as the loops perform it: the first function value met, else the last value. */
  function Resolve(vs: seq<Value>): Value
    requires |vs| > 0
  {
    if TypeOf(vs[0]) == "function" || |vs| == 1 then vs[0] else Resolve(vs[1..])
  }

  /** The lookup `getVariable` evidently means: the nearest defined value. */
  function Nearest(vs: seq<Value>): Value
  {
    if vs == [] then Undefined
    else if !vs[0].Undefined? then vs[0] else Nearest(vs[1..])
  }

  /** What a walk still to do from `rest` yields once `current` has been read. */
  function Continue(current: Value, rest: seq<Value>): Value
  {
    if rest == [] || TypeOf(current) == "function" then current else Resolve(rest)
  }

  // ---------------------------------------------------------------------
  // Parameter coercion
  // ---------------------------------------------------------------------

  /** `Array.isArray(type) ? type : [type]`. */
  function AllowedTypes(t: ParamType): (r: seq<string>)
    ensures t.One? ==> r == [t.name]
  {
    match t
    case One(name) => [name]
    case Many(names) => names
  }

  /** `typeof`, with `'date'` for a Date. */
  function TypeTag(v: Value): string
  {
    if v.DateObj? then "date" else TypeOf(v)
  }

  /** `new Date(v)`. */
  function ToDate(v: Value, host: Host): Number
  {
    match v
    case Undefined => NaN
    case Null => Finite(0)
    case Bool(b) => Finite(if b then 1 else 0)
    case Num(x) => if x.Finite? then TimeClip(x.n) else NaN
    case DateObj(t) => t
    case _ => host.parseDate(ToText(v, host))
  }

  /**
   * `formatValue(value)`: unchanged when its type is allowed, else coerced
   * to the first allowed type; `Err` where the coercion throws (`toString`
   * of null). A missing layout has no type, so nothing is allowed.
   */
  function FormatValue(layout: Option<ParamType>, v: Value, host: Host): (r: Result<Value>)
    ensures r.Err? <==> layout.None? ||
                        (TypeTag(v) !in AllowedTypes(layout.value) && AllowedTypes(layout.value) != [] &&
                         AllowedTypes(layout.value)[0] == "string" && Nullish(v))
    ensures layout.Some? && TypeTag(v) in AllowedTypes(layout.value) ==> r == Ok(v)
  {
    if layout.None? then Err("Cannot read properties of undefined (reading 'type')")
    else
      var allowed := AllowedTypes(layout.value);
      if TypeTag(v) in allowed then Ok(v)
      else if allowed == [] then Ok(Undefined)
      else if allowed[0] == "number" then Ok(Num(ParseFloat(ToText(v, host))))
      else if allowed[0] == "string" then
        if Nullish(v) then Err("Cannot read properties of " + ToText(v, host) + " (reading 'toString')")
        else Ok(Str(ToText(v, host)))
      else if allowed[0] == "boolean" then
        if v == Str("true") then Ok(Bool(true))
        else if v == Str("false") then Ok(Bool(false))
        else Ok(Bool(Truthy(v)))
      else if allowed[0] == "date" then Ok(DateObj(ToDate(v, host)))
      else Ok(Undefined)
  }

  // ---------------------------------------------------------------------
  // The shared id map
  // ---------------------------------------------------------------------

  /** The `blocks` object `Flow.createContext` fills and the flow context reads, in key insertion order. */
  class BlockTable {
    var order: seq<string>
    var entries: map<string, FlowBlockContext>

    ghost predicate Valid()
      reads this
    {
      (forall id :: id in entries <==> id in order) &&
      forall i, j :: 0 <= i < j < |order| ==> order[i] != order[j]
    }

    constructor ()
      ensures order == [] && entries == map[] && Valid()
    {
      order := [];
      entries := map[];
    }

    /** `blocks[id] = ctx`: a new key goes last; an existing one keeps its place. */
    method Put(id: string, ctx: FlowBlockContext)
      requires Valid()
      modifies this
      ensures Valid()
      ensures entries == old(entries)[id := ctx]
      ensures order == if id in old(entries) then old(order) else old(order) + [id]
    {
      if id !in entries {
        order := order + [id];
      }
      entries := entries[id := ctx];
    }

    /** `Object.values(blocks)`. */
    function Values(): (r: seq<FlowBlockContext>)
      reads this
      requires Valid()
      ensures |r| == |order| && forall k :: 0 <= k < |r| ==> r[k] == entries[order[k]]
    {
      seq(|order|, k requires 0 <= k < |order| && order[k] in entries reads this => entries[order[k]])
    }
  }

  class FlowContext {
    /** `flow.getId()`. */
    const flowId: int
    /** The script (`readonly def`). */
    const def: seq<BlockDef>
    /** The id map, held by reference. */
    const blocks: BlockTable
    /** The flow's task manager, through which block tasks are scheduled. */
    const taskManager: Tasks.TaskManager
    /** Each block type's declared parameter types, by parameter id. */
    const layouts: (string, string) -> Option<ParamType>
    const host: Host
    var meta: map<string, Value>

    constructor (flowId: int, def: seq<BlockDef>, blocks: BlockTable, taskManager: Tasks.TaskManager,
                 layouts: (string, string) -> Option<ParamType>, host: Host)
      ensures this.flowId == flowId && this.def == def && this.blocks == blocks
      ensures this.taskManager == taskManager && this.layouts == layouts && this.host == host
      ensures meta == map[]
    {
      this.flowId := flowId;
      this.def := def;
      this.blocks := blocks;
      this.taskManager := taskManager;
      this.layouts := layouts;
      this.host := host;
      meta := map[];
    }

    /** A context sits at the place of its own definition in this flow's script. */
    ghost predicate Placed(c: FlowBlockContext, id: string)
    {
      c.flowCtx == this && c.index < |def| && def[c.index] == c.def && c.def.id == id && c.id == id
    }

    ghost predicate Valid()
      reads blocks
    {
      forall id :: id in blocks.entries ==> Placed(blocks.entries[id], id)
    }

    /** `getBlock(id)`: whatever the shared map holds under the id now. */
    function GetBlock(id: string): (r: Option<FlowBlockContext>)
      reads blocks
      ensures r.Some? <==> id in blocks.entries
      ensures r.Some? ==> r.value == blocks.entries[id]
      ensures Valid() && r.Some? ==> Placed(r.value, id)
    {
      if id in blocks.entries then Some(blocks.entries[id]) else None
    }

    /** `setMeta(key, value)`: later reads of the key see the value; other keys are unchanged. */
    method SetMeta(key: string, value: Value)
      modifies this
      ensures GetMeta(key) == value
      ensures forall k :: k != key ==> GetMeta(k) == old(GetMeta(k))
      ensures meta.Keys == old(meta.Keys) + {key}
    {
      meta := meta[key := value];
    }

    /** `getMeta(key)`: the value last set under the key, undefined when none was. */
    function GetMeta(key: string): (v: Value)
      reads this
      ensures key !in meta ==> v.Undefined?
      ensures key in meta ==> v == meta[key]
    {
      Get(meta, key)
    }
  }

  // ---------------------------------------------------------------------
  // Block contexts
  // ---------------------------------------------------------------------

  class FlowBlockContext {
    const id: string
    const flowCtx: FlowContext
    const def: BlockDef
    /** The place of `def` in the flow's script. */
    ghost const index: nat
    var isMounted: bool
    var handlers: map<string, Value>
    var variables: map<string, Value>
    /** `listeners`; `unmount` deletes entries, leaving holes. */
    var listeners: seq<Option<Attachment>>
    var parameters: map<string, FlowBlockParameterContext>
    var statements: map<string, FlowBlockStatementContext>

    /**
     * The constructor for a definition found in the script: one parameter
     * context per definition parameter and one statement context per
     * definition statement, keyed by id. When two entries share an id, the
     * later one overwrites the earlier in the map, while a lookup by id in
     * the definition itself (`ensureFind`) finds the earlier one. The slot
     * contexts are built as intended, each from its own definition and
     * layout; `InputAsWritten` is the construction as written.
     */
    constructor (flow: FlowContext, index: nat)
      requires index < |flow.def|
      ensures id == flow.def[index].id && flowCtx == flow && def == flow.def[index] && this.index == index
      ensures !isMounted && handlers == map[] && variables == map[] && listeners == []
      ensures forall k :: k in parameters <==> exists j :: 0 <= j < |def.parameters| && def.parameters[j].id == k
      ensures forall k :: k in parameters ==>
                fresh(parameters[k]) && parameters[k].blockCtx == this && parameters[k].def in def.parameters &&
                parameters[k].def.id == k && parameters[k].layout == flow.layouts(def.blockType, k)
      ensures forall k :: k in statements <==> exists j :: 0 <= j < |def.statements| && def.statements[j].id == k
      ensures forall k :: k in statements ==>
                fresh(statements[k]) && statements[k].blockCtx == this && statements[k].id == k &&
                StatementDef(k, statements[k].children) in def.statements &&
                statements[k].pointer == 0 && !statements[k].stopped
    {
      var d := flow.def[index];
      id := d.id;
      flowCtx := flow;
      def := d;
      this.index := index;
      isMounted := false;
      handlers := map[];
      variables := map[];
      listeners := [];
      parameters := map[];
      statements := map[];
      new;
      var i := 0;
      while i < |d.parameters|
        invariant 0 <= i <= |d.parameters|
        invariant forall k :: k in parameters <==> exists j :: 0 <= j < i && d.parameters[j].id == k
        invariant statements == map[]
        invariant !isMounted && handlers == map[] && variables == map[] && listeners == []
        invariant forall k :: k in parameters ==>
                    fresh(parameters[k]) && parameters[k].blockCtx == this && parameters[k].def in d.parameters &&
                    parameters[k].def.id == k && parameters[k].layout == flow.layouts(d.blockType, k)
      {
        var p := d.parameters[i];
        var ctx := new FlowBlockParameterContext(this, p, flow.layouts(d.blockType, p.id));
        parameters := parameters[p.id := ctx];
        i := i + 1;
      }
      i := 0;
      ghost var params := parameters;
      while i < |d.statements|
        invariant 0 <= i <= |d.statements|
        invariant parameters == params
        invariant !isMounted && handlers == map[] && variables == map[] && listeners == []
        invariant forall k :: k in statements <==> exists j :: 0 <= j < i && d.statements[j].id == k
        invariant forall k :: k in statements ==>
                    fresh(statements[k]) && statements[k].blockCtx == this && statements[k].id == k &&
                    StatementDef(k, statements[k].children) in d.statements &&
                    statements[k].pointer == 0 && !statements[k].stopped
      {
        var s := d.statements[i];
        var ctx := new FlowBlockStatementContext(this, s);
        statements := statements[s.id := ctx];
        i := i + 1;
      }
    }

    /** `new FlowBlockContext(id, flow)`: throws when the script has no definition with the id. */
    static method Create(id: string, flow: FlowContext) returns (r: Result<FlowBlockContext>)
      ensures r.Err? <==> FindDef(flow.def, id).None?
      ensures r.Ok? ==> fresh(r.value) && r.value.index == FindDef(flow.def, id).value &&
                        r.value.id == id && r.value.flowCtx == flow && r.value.def == flow.def[r.value.index] &&
                        !r.value.isMounted && r.value.listeners == []
    {
      var found := FindDef(flow.def, id);
      if found.None? {
        return Err("Definition for block '" + id + "' not found.");
      }
      var ctx := new FlowBlockContext(flow, found.value);
      r := Ok(ctx);
    }

    /** This context is one of its flow's, at the place of its definition. */
    ghost predicate Linked()
      reads flowCtx.blocks
    {
      flowCtx.Valid() && index < |flowCtx.def| && flowCtx.def[index] == def
    }

    /** `parentBlock()`: the context the map holds under the definition's parent id. */
    function ParentBlock(): (r: Option<FlowBlockContext>)
      reads flowCtx.blocks
      ensures r == flowCtx.GetBlock(def.parent)
    {
      flowCtx.GetBlock(def.parent)
    }

    /** `hasParent()`: the parent id resolves to a block of the flow; never for `'__ROOT__'` parents. */
    function HasParent(): (b: bool)
      reads flowCtx.blocks
      ensures b <==> def.parent in flowCtx.blocks.entries
      ensures Linked() && def.parent == ROOT && (forall i :: 0 <= i < |flowCtx.def| ==> flowCtx.def[i].id != ROOT) ==> !b
    {
      ParentBlock().Some?
    }

    /** A linked block's parent is linked too, and its definition comes later in the script. */
    lemma ParentComesLater()
      requires Linked() && ParentsAfter(flowCtx.def)
      ensures ParentBlock().Some? ==>
                var q := ParentBlock().value;
                q.Linked() && q.flowCtx == flowCtx && index < q.index
    {
      if ParentBlock().Some? {
        var q := ParentBlock().value;
        assert flowCtx.Placed(q, def.parent);
        assert flowCtx.def[q.index].id == flowCtx.def[index].parent;
      }
    }

    /** The top-most ancestor reached through parent links (this block when it has no parent). */
    ghost function Top(): (t: FlowBlockContext)
      reads flowCtx.blocks
      requires Linked() && ParentsAfter(flowCtx.def)
      ensures t.Linked() && t.flowCtx == flowCtx && t.ParentBlock().None?
      decreases |flowCtx.def| - index
    {
      ParentComesLater();
      match ParentBlock()
      case None => this
      case Some(q) => q.Top()
    }

    /** The value each block on the way up holds under `name` in `handlers`. */
    ghost function HandlerChain(name: string): (vs: seq<Value>)
      reads this, flowCtx.blocks, flowCtx.blocks.entries.Values
      requires Linked() && ParentsAfter(flowCtx.def)
      ensures |vs| > 0 && vs[0] == Get(handlers, name)
      decreases |flowCtx.def| - index
    {
      ParentComesLater();
      [Get(handlers, name)] +
      match ParentBlock()
      case None => []
      case Some(q) => q.HandlerChain(name)
    }

    /** The value each block on the way up holds under `name` in `variables`. */
    ghost function VariableChain(name: string): (vs: seq<Value>)
      reads this, flowCtx.blocks, flowCtx.blocks.entries.Values
      requires Linked() && ParentsAfter(flowCtx.def)
      ensures |vs| > 0 && vs[0] == Get(variables, name)
      decreases |flowCtx.def| - index
    {
      ParentComesLater();
      [Get(variables, name)] +
      match ParentBlock()
      case None => []
      case Some(q) => q.VariableChain(name)
    }

    /**
     * `rootBlock()`: from the parent, follows parent links to a block with
     * none. A block without a parent has no `rootBlock` (it throws).
     */
    method RootBlock() returns (r: Option<FlowBlockContext>)
      requires Linked() && ParentsAfter(flowCtx.def)
      ensures r.Some? <==> HasParent()
      ensures r.Some? ==> r.value == Top() && !r.value.HasParent() && r.value != this
    {
      var start := ParentBlock();
      if start.None? {
        return None;
      }
      ParentComesLater();
      var root := start.value;
      while root.HasParent()
        invariant root.Linked() && root.flowCtx == flowCtx && root.index > index && root.Top() == Top()
        decreases |flowCtx.def| - root.index
      {
        root.ParentComesLater();
        root := root.ParentBlock().value;
      }
      r := Some(root);
    }

    /** `registerHandler(name, callback)`. */
    method RegisterHandler(name: string, callback: Value)
      modifies this
      ensures handlers == old(handlers)[name := callback]
      ensures variables == old(variables) && listeners == old(listeners) && isMounted == old(isMounted)
    {
      handlers := handlers[name := callback];
    }

    /**
     * `getHandler(name)`: the nearest handler that is a function, from this
     * block up; with none, what the top-most ancestor holds.
     */
    method GetHandler(name: string) returns (h: Value)
      requires Linked() && ParentsAfter(flowCtx.def)
      ensures h == Resolve(HandlerChain(name))
    {
      h := Undefined;
      var current: Option<FlowBlockContext> := Some(this);
      while current.Some? && TypeOf(h) != "function"
        invariant current.Some? ==> current.value.Linked() && current.value.flowCtx == flowCtx
        invariant current.Some? ==> Resolve(HandlerChain(name)) == Continue(h, current.value.HandlerChain(name))
        invariant current.None? ==> Resolve(HandlerChain(name)) == h
        invariant current == Some(this) ==> h.Undefined?
        decreases if current.Some? then |flowCtx.def| - current.value.index + 1 else 0
      {
        var c := current.value;
        ghost var chain := c.HandlerChain(name);
        h := Get(c.handlers, name);
        current := c.ParentBlock();
        assert chain[1..] == if current.Some? then current.value.HandlerChain(name) else [];
      }
    }

    /**
     * `invokeHandler(name)`: true iff the handler found is a function and
     * runs without throwing (`throws` says whether a function value throws);
     * every error is swallowed.
     */
    method InvokeHandler(name: string, throws: Value -> bool) returns (ok: bool)
      requires Linked() && ParentsAfter(flowCtx.def)
      ensures ok <==> TypeOf(Resolve(HandlerChain(name))) == "function" && !throws(Resolve(HandlerChain(name)))
    {
      var handler := GetHandler(name);
      if TypeOf(handler) == "function" {
        if throws(handler) {
          return false;
        }
        return true;
      }
      return false;
    }

    /** `setVariable(name, value)`. */
    method SetVariable(name: string, value: Value)
      modifies this
      ensures variables == old(variables)[name := value]
      ensures handlers == old(handlers) && listeners == old(listeners) && isMounted == old(isMounted)
    {
      variables := variables[name := value];
    }

    /**
     * `getVariable(name)` as written: the walk stops only at a function, so
     * any other value comes from the top-most ancestor.
     */
    method GetVariable(name: string) returns (v: Value)
      requires Linked() && ParentsAfter(flowCtx.def)
      ensures v == Resolve(VariableChain(name))
    {
      v := Undefined;
      var current: Option<FlowBlockContext> := Some(this);
      while current.Some? && TypeOf(v) != "function"
        invariant current.Some? ==> current.value.Linked() && current.value.flowCtx == flowCtx
        invariant current.Some? ==> Resolve(VariableChain(name)) == Continue(v, current.value.VariableChain(name))
        invariant current.None? ==> Resolve(VariableChain(name)) == v
        invariant current == Some(this) ==> v.Undefined?
        decreases if current.Some? then |flowCtx.def| - current.value.index + 1 else 0
      {
        var c := current.value;
        ghost var chain := c.VariableChain(name);
        v := Get(c.variables, name);
        current := c.ParentBlock();
        assert chain[1..] == if current.Some? then current.value.VariableChain(name) else [];
      }
    }

    /** `getVariable(name)` as evidently intended: the nearest block that defines the variable. */
    method GetVariableNearest(name: string) returns (v: Value)
      requires Linked() && ParentsAfter(flowCtx.def)
      ensures v == Nearest(VariableChain(name))
    {
      v := Undefined;
      var current: Option<FlowBlockContext> := Some(this);
      while current.Some? && v.Undefined?
        invariant current.Some? ==> current.value.Linked() && current.value.flowCtx == flowCtx
        invariant current.Some? && v.Undefined? ==> Nearest(VariableChain(name)) == Nearest(current.value.VariableChain(name))
        invariant !(current.Some? && v.Undefined?) ==> Nearest(VariableChain(name)) == v
        decreases if current.Some? then |flowCtx.def| - current.value.index + 1 else 0
      {
        var c := current.value;
        ghost var chain := c.VariableChain(name);
        v := Get(c.variables, name);
        current := c.ParentBlock();
        assert chain[1..] == if current.Some? then current.value.VariableChain(name) else [];
      }
    }

    /** `execute()`: the run's result; a run that throws or rejects is logged and yields undefined. */
    method Execute(bodies: Bodies) returns (result: Value)
      ensures result == ExecResult(bodies, def)
    {
      var outcome := bodies.run(def);
      if outcome.Threw? {
        return Undefined;
      }
      result := outcome.value;
    }

    /** `listen(model, eventName, callback)`: registers on the model, without a key, and remembers it. */
    method Listen(model: Model, eventName: string, callback: Callback)
      modifies this, model
      ensures model.listeners == old(model.listeners)[eventName := ListOf(old(model.listeners), eventName) + [Listener(callback, Undefined)]]
      ensures listeners == old(listeners) + [Some(Attachment(model, eventName, callback))]
      ensures handlers == old(handlers) && variables == old(variables) && isMounted == old(isMounted)
    {
      var _ := model.On(eventName, callback, Undefined);
      listeners := listeners + [Some(Attachment(model, eventName, callback))];
    }

    /** `mount()`: marks the block mounted; the body's `mount` is extension code. */
    method Mount()
      modifies this
      ensures isMounted
      ensures handlers == old(handlers) && variables == old(variables) && listeners == old(listeners)
    {
      isMounted := true;
    }

    /** The models the remembered listeners are attached to. */
    function AttachedModels(): set<Model>
      reads this
    {
      set k | 0 <= k < |listeners| && listeners[k].Some? :: listeners[k].value.model
    }

    /**
     * `unmount()`: detaches every remembered listener from its model,
     * deletes every entry (the array keeps its length) and clears `isMounted`.
     */
    method Unmount()
      modifies this, AttachedModels()
      ensures !isMounted && |listeners| == |old(listeners)|
      ensures forall k :: 0 <= k < |listeners| ==> listeners[k].None?
      ensures forall k :: 0 <= k < |old(listeners)| && old(listeners)[k].Some? ==>
                var a := old(listeners)[k].value;
                !Registered(ListOf(a.model.listeners, a.eventName), a.callback)
      ensures handlers == old(handlers) && variables == old(variables)
    {
      var attached := listeners;
      var i := 0;
      while i < |attached|
        invariant 0 <= i <= |attached| && |listeners| == |attached|
        invariant forall k :: 0 <= k < i ==> listeners[k].None?
        invariant forall k :: i <= k < |attached| ==> listeners[k] == attached[k]
        invariant forall k :: 0 <= k < i && attached[k].Some? ==>
                    !Registered(ListOf(attached[k].value.model.listeners, attached[k].value.eventName), attached[k].value.callback)
        invariant handlers == old(handlers) && variables == old(variables)
      {
        if attached[i].Some? {
          var a := attached[i].value;
          ghost var before := a.model.listeners;
          var _ := a.model.Off(a.eventName, a.callback);
          forall k | 0 <= k < i && attached[k].Some? && attached[k].value.model == a.model
            ensures !Registered(ListOf(a.model.listeners, attached[k].value.eventName), attached[k].value.callback)
          {
            StaysDetached(before, a.eventName, a.callback, attached[k].value.eventName, attached[k].value.callback);
          }
          listeners := listeners[i := None];
        }
        i := i + 1;
      }
      isMounted := false;
    }

    /** `serialize()`: the task `ctx` naming this block and its flow. */
    function Serialize(): (r: TaskCtx)
      ensures r.block.id == def.id && r.block.blockType == def.blockType && r.flowId == flowCtx.flowId
    {
      TaskCtx(BlockRef(def.blockType, def.id), flowCtx.flowId)
    }

    /** The `data` every task helper schedules. */
    function TaskPayload(keyword: string, data: Value): TaskData
    {
      var ctx := Serialize();
      FlowPayload(CUSTOM, keyword, data, ctx.block, ctx.flowId)
    }

    /** `addTimedTask(date, keyword, data)`: a `'FLOW_TASK'` task at `date` carrying the payload. */
    method AddTimedTask(date: Time, keyword: string, data: Value, uuid: string, now: int)
      requires flowCtx.taskManager.runner.Valid()
      modifies flowCtx.taskManager.runner
      ensures flowCtx.taskManager.runner.Valid()
      ensures flowCtx.taskManager.runner.State() ==
                TaskSpec.AddTask(old(flowCtx.taskManager.runner.State()), flowCtx.taskManager.runner.cron,
                  NewRow(Some(date), None, FLOW_TASK, TaskPayload(keyword, data), uuid, flowCtx.taskManager.id), now).1
    {
      var _ := flowCtx.taskManager.AddTimedTask(FLOW_TASK, date, TaskPayload(keyword, data), uuid, now);
    }

    /** `addDelayedTask(msDelay, keyword, data)`: a `'FLOW_TASK'` task `msDelay` after `now`. */
    method AddDelayedTask(msDelay: int, keyword: string, data: Value, uuid: string, now: int)
      requires flowCtx.taskManager.runner.Valid()
      modifies flowCtx.taskManager.runner
      ensures flowCtx.taskManager.runner.Valid()
      ensures flowCtx.taskManager.runner.State() ==
                TaskSpec.AddTask(old(flowCtx.taskManager.runner.State()), flowCtx.taskManager.runner.cron,
                  NewRow(Some(TimeClip(now + msDelay)), None, FLOW_TASK, TaskPayload(keyword, data), uuid, flowCtx.taskManager.id), now).1
    {
      var _ := flowCtx.taskManager.AddDelayedTask(FLOW_TASK, msDelay, TaskPayload(keyword, data), uuid, now);
    }

    /** `addRepeatingTask(interval, keyword, data)`: a repeating `'FLOW_TASK'` task. */
    method AddRepeatingTask(interval: string, keyword: string, data: Value, uuid: string, now: int)
      requires flowCtx.taskManager.runner.Valid()
      modifies flowCtx.taskManager.runner
      ensures flowCtx.taskManager.runner.Valid()
      ensures flowCtx.taskManager.runner.State() ==
                TaskSpec.AddTask(old(flowCtx.taskManager.runner.State()), flowCtx.taskManager.runner.cron,
                  NewRow(None, Some(interval), FLOW_TASK, TaskPayload(keyword, data), uuid, flowCtx.taskManager.id), now).1
    {
      var _ := flowCtx.taskManager.AddRepeatingTask(FLOW_TASK, interval, TaskPayload(keyword, data), uuid, now);
    }
  }

  // ---------------------------------------------------------------------
  // Statements
  // ---------------------------------------------------------------------

  /** Whether running child `i` of a statement over `kids` stops the statement. */
  function Halts(kids: seq<Option<FlowBlockContext>>, bodies: Bodies, i: int): bool
  {
    0 <= i < |kids| && kids[i].Some? && bodies.stops(kids[i].value.def)
  }

  /**
   * The indices `execute` visits from pointer `p` over `kids`, not stopped
   * at the start, with the pointer and stop flag it ends with.
   */
  function Trace(kids: seq<Option<FlowBlockContext>>, bodies: Bodies, p: int): (r: (seq<int>, int, bool))
    decreases |kids| - p
  {
    if p >= |kids| then ([], p, false)
    else if Halts(kids, bodies, p) then ([p], p + 1, true)
    else
      var rest := Trace(kids, bodies, p + 1);
      ([p] + rest.0, rest.1, rest.2)
  }

  class FlowBlockStatementContext {
    const id: string
    const blockCtx: FlowBlockContext
    /** The definition's `children` ids, in order. */
    const children: seq<string>
    var pointer: int
    var stopped: bool

    /** A new statement starts at pointer 0, not stopped. */
    constructor (blockCtx: FlowBlockContext, def: StatementDef)
      ensures this.blockCtx == blockCtx && id == def.id && children == def.children
      ensures pointer == 0 && !stopped
    {
      this.blockCtx := blockCtx;
      id := def.id;
      children := def.children;
      pointer := 0;
      stopped := false;
    }

    /** `blocks()`: the context of each child id, in the order of the ids; absent for an unknown id. */
    function Blocks(): (r: seq<Option<FlowBlockContext>>)
      reads blockCtx.flowCtx.blocks
      ensures |r| == |children|
      ensures forall k :: 0 <= k < |r| ==> r[k] == blockCtx.flowCtx.GetBlock(children[k])
    {
      seq(|children|, k requires 0 <= k < |children| reads blockCtx.flowCtx.blocks => blockCtx.flowCtx.GetBlock(children[k]))
    }

    /**
     * `executeBlock(index)`: false, running nothing, when no context sits at
     * the index; otherwise runs it, and the run may stop this statement.
     */
    method ExecuteBlock(index: int, bodies: Bodies) returns (ran: bool)
      modifies this
      ensures ran <==> 0 <= index < |Blocks()| && Blocks()[index].Some?
      ensures stopped == (old(stopped) || Halts(Blocks(), bodies, index))
      ensures pointer == old(pointer)
    {
      var kids := Blocks();
      if !(0 <= index < |kids|) || kids[index].None? {
        return false;
      }
      var block := kids[index].value;
      var _ := block.Execute(bodies);
      if bodies.stops(block.def) {
        stopped := true;
      }
      return true;
    }

    /**
     * `execute(p)`: moves the pointer to `p`, then runs the child at the
     * pointer and advances it until stopped or past the last child.
     */
    method Execute(p: int, bodies: Bodies) returns (visited: seq<int>)
      modifies this
      ensures old(stopped) ==> visited == [] && pointer == p && stopped
      ensures !old(stopped) ==> (visited, pointer, stopped) == Trace(Blocks(), bodies, p)
    {
      pointer := p;
      visited := [];
      ghost var kids := Blocks();
      assert [] + Trace(kids, bodies, p).0 == Trace(kids, bodies, p).0;
      while !stopped && pointer < |children|
        invariant kids == Blocks()
        invariant old(stopped) ==> visited == [] && pointer == p && stopped
        invariant !old(stopped) && !stopped ==>
                    Trace(kids, bodies, p).0 == visited + Trace(kids, bodies, pointer).0 &&
                    Trace(kids, bodies, p).1 == Trace(kids, bodies, pointer).1 && Trace(kids, bodies, p).2 == Trace(kids, bodies, pointer).2
        invariant !old(stopped) && stopped ==> Trace(kids, bodies, p) == (visited, pointer, true)
        decreases |children| - pointer, if stopped then 0 else 1
      {
        var _ := ExecuteBlock(pointer, bodies);
        assert visited + ([pointer] + Trace(kids, bodies, pointer + 1).0) == visited + [pointer] + Trace(kids, bodies, pointer + 1).0;
        visited := visited + [pointer];
        pointer := pointer + 1;
      }
      if !old(stopped) && !stopped {
        assert Trace(kids, bodies, pointer) == ([], pointer, false);
        assert visited + [] == visited;
      }
    }

    /** `stopExecution(flag)`. */
    method StopExecution(flag: bool)
      modifies this
      ensures stopped == flag && pointer == old(pointer)
    {
      stopped := flag;
    }

    /** `startExecution(p)`: clears the stop flag and executes from `p`, by default the current pointer. */
    method StartExecution(p: Option<int>, bodies: Bodies) returns (visited: seq<int>)
      modifies this
      ensures (visited, pointer, stopped) == Trace(Blocks(), bodies, p.GetOr(old(pointer)))
    {
      stopped := false;
      visited := Execute(p.GetOr(pointer), bodies);
    }

    /** `movePointer(index)`. */
    method MovePointer(index: int)
      modifies this
      ensures pointer == index && stopped == old(stopped)
    {
      pointer := index;
    }

    /** `resetPointer()`. */
    method ResetPointer()
      modifies this
      ensures pointer == 0 && stopped == old(stopped)
    {
      pointer := 0;
    }

    /** `currentPointer()`. */
    function CurrentPointer(): int
      reads this
    {
      pointer
    }
  }

  // ---------------------------------------------------------------------
  // Parameters
  // ---------------------------------------------------------------------

  class FlowBlockParameterContext {
    const id: string
    const blockCtx: FlowBlockContext
    const def: ParamDef
    /** The layout parameter's type, when the block type's layout declares the parameter. */
    const layout: Option<ParamType>

    constructor (blockCtx: FlowBlockContext, def: ParamDef, layout: Option<ParamType>)
      ensures this.blockCtx == blockCtx && this.def == def && this.layout == layout && id == def.id
    {
      this.blockCtx := blockCtx;
      this.def := def;
      this.layout := layout;
      id := def.id;
    }

    /**
     * `value()`: a defined constant, formatted, without running any block;
     * else the result of executing the referenced block; else null. `Err`
     * stands for a promise that never settles: the executor threw, because
     * the referenced block is unknown or the formatting threw.
     */
    method Value(bodies: Bodies) returns (r: Result<Value>)
      ensures def.value.Constant? && !def.value.constant.Undefined? ==>
                r == FormatValue(layout, def.value.constant, blockCtx.flowCtx.host)
      ensures def.value.Ref? && def.value.block.Some? ==>
                match blockCtx.flowCtx.GetBlock(def.value.block.value)
                case None => r.Err?
                case Some(b) => r == Ok(ExecResult(bodies, b.def))
      ensures (def.value.Constant? && def.value.constant.Undefined?) || (def.value.Ref? && def.value.block.None?) ==>
                r == Ok(Null)
    {
      if def.value.Constant? && !def.value.constant.Undefined? {
        return FormatValue(layout, def.value.constant, blockCtx.flowCtx.host);
      }
      if def.value.Ref? && def.value.block.Some? {
        var block := blockCtx.flowCtx.GetBlock(def.value.block.value);
        if block.None? {
          return Err("Cannot read properties of undefined (reading 'execute')");
        }
        var v := block.value.Execute(bodies);
        return Ok(v);
      }
      return Ok(Null);
    }
  }

  // ---------------------------------------------------------------------
  // Input contexts as the block context builds them
  // ---------------------------------------------------------------------

  /**
   * The properties a `FlowBlockContext` carries once constructed: its
   * fields and the memoised `rootBlock`. Neither `value` nor `children` is
   * one of them.
   */
  const BLOCK_CONTEXT_PROPERTIES: set<string> :=
    {"def", "manifest", "layout", "flowCtx", "isMounted", "id", "handlers", "variables",
     "instance", "listeners", "_parameters", "_statements", "rootBlock"}

  /**
   * An input context as the block context's constructor builds it, with
   * `new FlowBlockParameterContext(p.id, this)` or
   * `new FlowBlockStatementContext(s.id, this)`. The constructor these
   * reach takes `(blockCtx, def, layout)`: the slot id lands in
   * `blockCtx`, the block context in `def`, `layout` stays undefined, `id`
   * is read from the block context, and `init()`, which would look up the
   * slot's own definition, is never called. The statement's pointer and
   * stop flag are its own.
   */
  datatype InputAsWritten = InputAsWritten(blockCtx: Value, def: FlowBlockContext, layout: Value, id: string,
                                           pointer: int, stopped: bool)

  function BuildInputAsWritten(slotId: string, block: FlowBlockContext): InputAsWritten
  {
    InputAsWritten(Str(slotId), block, Undefined, block.id, 0, false)
  }

  /** Reading `this.def[name]` of such a context: undefined for a property the block context lacks. */
  predicate DefHas(name: string)
  {
    name in BLOCK_CONTEXT_PROPERTIES
  }

  /**
   * `value()` as written: `this.def.value` is undefined, so reading its
   * `constant` throws inside the promise's executor, and the promise never
   * settles (`Err`), whatever the slot's definition holds.
   */
  function ParameterValueAsWritten(c: InputAsWritten): (r: Result<Value>)
    ensures r.Err?
  {
    if DefHas("value") then Ok(Null)
    else Err("Cannot read properties of undefined (reading 'constant')")
  }

  /** `blocks()` as written: `this.def.children` is undefined, so `.map` throws a TypeError. */
  function BlocksAsWritten(c: InputAsWritten): (r: Result<seq<FlowBlockContext>>)
    ensures r.Err?
  {
    if DefHas("children") then Ok([])
    else Err("Cannot read properties of undefined (reading 'map')")
  }

  /** `executeBlock(index)` as written: `blocks()` throws first, so it rejects for every index. */
  function ExecuteBlockAsWritten(c: InputAsWritten, index: int): (r: Result<bool>)
    ensures r.Err?
  {
    match BlocksAsWritten(c)
    case Err(e) => Err(e)
    case Ok(kids) => Ok(0 <= index < |kids|)
  }

  /**
   * `execute(p)` as written, with the pointer it leaves: the pointer moves
   * to `p`; a stopped statement leaves the loop before its condition calls
   * `blocks()` and resolves having run nothing; otherwise the condition's
   * `blocks()` throws and it rejects before any child runs.
   */
  function ExecuteAsWritten(c: InputAsWritten, p: int): (r: (int, Result<seq<int>>))
    ensures r.0 == p
    ensures r.1.Ok? <==> c.stopped
    ensures r.1.Ok? ==> r.1.value == []
  {
    if c.stopped then (p, Ok([]))
    else match BlocksAsWritten(c)
      case Err(e) => (p, Err(e))
      case Ok(kids) => (p, Ok([]))
  }

  /**
   * `startExecution(p)` as written: clears the stop flag, then runs
   * `execute`, which therefore always rejects.
   */
  function StartExecutionAsWritten(c: InputAsWritten, p: Option<int>): (r: (int, Result<seq<int>>))
    ensures r.0 == p.GetOr(c.pointer)
    ensures r.1.Err?
  {
    ExecuteAsWritten(c.(stopped := false), p.GetOr(c.pointer))
  }

  /**
   * Built as written, an input context is named after its block rather
   * than its slot, no parameter value ever settles, and no statement child
   * ever runs: a statement started or executed while not stopped rejects.
   */
  lemma InputsAsWrittenFail(slotId: string, block: FlowBlockContext, p: int)
    ensures var c := BuildInputAsWritten(slotId, block);
            c.id == block.id && c.layout.Undefined? &&
            ParameterValueAsWritten(c).Err? && BlocksAsWritten(c).Err? &&
            ExecuteAsWritten(c, p).1.Err? && StartExecutionAsWritten(c, Some(p)).1.Err?
  {
  }

  // ---------------------------------------------------------------------
  // Properties
  // ---------------------------------------------------------------------

  /** The walk yields the first function value when there is one, else the last value. */
  lemma {:induction false} ResolveFacts(vs: seq<Value>)
    requires |vs| > 0
    ensures (forall k :: 0 <= k < |vs| ==> TypeOf(vs[k]) != "function") ==> Resolve(vs) == vs[|vs| - 1]
    ensures forall k :: 0 <= k < |vs| && TypeOf(vs[k]) == "function" && (forall j :: 0 <= j < k ==> TypeOf(vs[j]) != "function") ==>
              Resolve(vs) == vs[k]
  {
    if |vs| > 1 && TypeOf(vs[0]) != "function" {
      ResolveFacts(vs[1..]);
      forall k | 0 < k < |vs| && TypeOf(vs[k]) == "function" && (forall j :: 0 <= j < k ==> TypeOf(vs[j]) != "function")
        ensures Resolve(vs) == vs[k]
      {
        assert vs[1..][k - 1] == vs[k];
        forall j | 0 <= j < k - 1 ensures TypeOf(vs[1..][j]) != "function" {
          assert vs[1..][j] == vs[j + 1];
        }
      }
    }
  }

  /** The evident intent: the nearest defined value wins. */
  lemma {:induction false} NearestFacts(vs: seq<Value>)
    ensures Nearest(vs).Undefined? <==> forall k :: 0 <= k < |vs| ==> vs[k].Undefined?
    ensures forall k :: 0 <= k < |vs| && !vs[k].Undefined? && (forall j :: 0 <= j < k ==> vs[j].Undefined?) ==>
              Nearest(vs) == vs[k]
  {
    if vs != [] && vs[0].Undefined? {
      NearestFacts(vs[1..]);
      assert forall k :: 1 <= k < |vs| ==> vs[1..][k - 1] == vs[k];
    }
  }

  /**
   * A variable a block sets on itself is lost to `getVariable` as written
   * whenever an ancestor lacks it; the intended lookup returns it.
   */
  lemma OwnVariableShadowed()
    ensures Resolve([Num(Finite(1)), Undefined]) == Undefined
    ensures Nearest([Num(Finite(1)), Undefined]) == Num(Finite(1))
  {
  }

  /** A block set on itself reads back through the intended lookup, whatever its ancestors hold. */
  lemma NearestOwnValue(v: Value, rest: seq<Value>)
    requires !v.Undefined?
    ensures Nearest([v] + rest) == v
  {
  }

  /** A compiled script with unique ids, none of them the root id, has its parents after their children. */
  lemma CompiledParentsAfter(script: seq<BlockDef>)
    requires ParentsLater(script, ROOT) && UniqueIds(script)
    requires forall i :: 0 <= i < |script| ==> script[i].id != ROOT
    ensures ParentsAfter(script)
  {
    forall i, j | 0 <= i <= j < |script|
      ensures script[i].id != script[j].parent
    {
      if script[j].parent != ROOT {
        assert ParentAfter(script, j);
        var m :| j < m < |script| && script[m].id == script[j].parent;
      }
    }
  }

  /** `formatValue`'s result has the first allowed type, or is the value itself with an allowed type. */
  lemma FormatConforms(t: ParamType, v: Value, host: Host)
    ensures var r := FormatValue(Some(t), v, host);
            r.Ok? && !r.value.Undefined? ==> TypeTag(r.value) in AllowedTypes(t)
    ensures var r := FormatValue(Some(t), v, host);
            r.Ok? && r.value != v ==> r.value.Undefined? || (|AllowedTypes(t)| > 0 && TypeTag(r.value) == AllowedTypes(t)[0])
  {
  }

  /** Formatting a formatted value changes nothing. */
  lemma FormatIdempotent(t: ParamType, v: Value, host: Host)
    requires FormatValue(Some(t), v, host).Ok? && !FormatValue(Some(t), v, host).value.Undefined?
    ensures FormatValue(Some(t), FormatValue(Some(t), v, host).value, host) == FormatValue(Some(t), v, host)
  {
    FormatConforms(t, v, host);
  }

  /** With no context at all, `execute(0)` visits every child once, in order, and ends past the last. */
  lemma {:induction false} TraceAll(kids: seq<Option<FlowBlockContext>>, bodies: Bodies, p: int)
    requires 0 <= p <= |kids|
    requires forall i :: p <= i < |kids| ==> !Halts(kids, bodies, i)
    ensures Trace(kids, bodies, p) == (seq(|kids| - p, k => p + k), |kids|, false)
    decreases |kids| - p
  {
    if p < |kids| {
      TraceAll(kids, bodies, p + 1);
      assert seq(|kids| - p, k => p + k) == [p] + seq(|kids| - (p + 1), k => p + 1 + k);
    } else {
      assert seq(|kids| - p, k => p + k) == [];
    }
  }

  /** A stop raised by child `i` lets it finish and advances the pointer past it; no later child runs. */
  lemma {:induction false} TraceStops(kids: seq<Option<FlowBlockContext>>, bodies: Bodies, p: int, i: int)
    requires p <= i < |kids| && Halts(kids, bodies, i)
    requires forall j :: p <= j < i ==> !Halts(kids, bodies, j)
    ensures Trace(kids, bodies, p) == (seq(i + 1 - p, k => p + k), i + 1, true)
    decreases i - p
  {
    if p < i {
      TraceStops(kids, bodies, p + 1, i);
      assert seq(i + 1 - p, k => p + k) == [p] + seq(i + 1 - (p + 1), k => p + 1 + k);
    } else {
      assert seq(i + 1 - p, k => p + k) == [p];
    }
  }
}
