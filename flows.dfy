/**
 * `Flow`: a stored flow's workspace, and what it does with it: compile it
 * into a script, build a fresh context graph over the script, mount or run
 * the blocks, clear the flow's scheduled tasks on reload, and route a fired
 * flow task back to the block that scheduled it.
 */
module Flows {
  import opened Wrappers
  import opened Js
  import opened FlowScripts
  import opened FlowTranspilers
  import opened TaskSpec
  import Tasks
  import opened FlowRuntime

  /** The ids of a script's definitions, in script order. */
  function Ids(script: seq<BlockDef>): (r: seq<string>)
    ensures |r| == |script| && forall k :: 0 <= k < |r| ==> r[k] == script[k].id
  {
    seq(|script|, k requires 0 <= k < |script| => script[k].id)
  }

  /** The keys of an object assigned `ids` in order: each id once, where it first appears. */
  function FirstIds(ids: seq<string>): (r: seq<string>)
    ensures forall x :: x in r <==> x in ids
    ensures forall i, j :: 0 <= i < j < |r| ==> r[i] != r[j]
  {
    if ids == [] then []
    else
      var d := FirstIds(ids[..|ids| - 1]);
      if ids[|ids| - 1] in d then d else d + [ids[|ids| - 1]]
  }

  /** Whether the context built for `id` has no parent: its definition's parent id names no block of the script. */
  predicate NoParent(script: seq<BlockDef>, id: string)
  {
    match FindDef(script, id)
    case None => false
    case Some(i) => script[i].parent !in Ids(script)
  }

  /** The ids among `ids` whose context has no parent, in order. */
  function Parentless(script: seq<BlockDef>, ids: seq<string>): (r: seq<string>)
    ensures forall x :: x in r <==> x in ids && NoParent(script, x)
  {
    if ids == [] then []
    else Parentless(script, ids[..|ids| - 1]) + (if NoParent(script, ids[|ids| - 1]) then [ids[|ids| - 1]] else [])
  }

  /** The blocks `execute` runs, in the order it starts them. */
  function Roots(script: seq<BlockDef>): seq<string>
  {
    Parentless(script, FirstIds(Ids(script)))
  }

  /** A task `reload` deletes: a `'FLOW_TASK'` whose payload names this flow. */
  predicate IsFlowTask(t: Task, flowId: int)
  {
    t.keyword == FLOW_TASK && t.data.FlowPayload? && t.data.flowId == flowId
  }

  /** The `forEach` of `reload` over the indexed tasks, deleting this flow's. */
  function DeleteFlowTasks(r: Runner, tasks: seq<Task>, flowId: int): Runner
    decreases |tasks|
  {
    if tasks == [] then r
    else DeleteFlowTasks(if IsFlowTask(tasks[0], flowId) then Delete(r, tasks[0].uuid) else r, tasks[1..], flowId)
  }

  /** Where a fired task is handed: the block type, the block id, and the task as the block scheduled it. */
  datatype Dispatch = Dispatch(blockType: string, blockId: string, keyword: string, data: Value)

  /** The guards of `handleBlockCustomTask`: only a `'CUSTOM'` payload of this flow is handled. */
  function Route(flowId: int, data: TaskData): (r: Option<Dispatch>)
    ensures r.Some? <==> data.FlowPayload? && data.taskType == CUSTOM && data.flowId == flowId
  {
    if data.FlowPayload? && data.taskType == CUSTOM && data.flowId == flowId then
      Some(Dispatch(data.block.blockType, data.block.id, data.originalKeyword, data.originalData))
    else None
  }

  class Flow {
    /** `getId()`. */
    const id: int
    /** The extension registry the workspace's block types are compiled against. */
    const registry: Registry
    /** The manager flow blocks schedule their tasks through, on the shared scheduler. */
    const taskManager: Tasks.TaskManager
    const layouts: (string, string) -> Option<ParamType>
    const host: Host
    /** `blocklyWorkspace.blocks`. */
    var workspace: seq<Block>

    /**
     * `new Flow(id, props)` with its defaults applied as intended: the
     * workspace the props give (`blocklyWorkspace.blocks`), else the default,
     * empty one.
     */
    constructor (id: int, registry: Registry, taskManager: Tasks.TaskManager,
                 layouts: (string, string) -> Option<ParamType>, host: Host, blocks: Option<seq<Block>>)
      ensures this.id == id && this.registry == registry && this.taskManager == taskManager
      ensures this.layouts == layouts && this.host == host
      ensures blocks.Some? ==> workspace == blocks.value
      ensures blocks.None? ==> workspace == []
    {
      this.id := id;
      this.registry := registry;
      this.taskManager := taskManager;
      this.layouts := layouts;
      this.host := host;
      workspace := if blocks.Some? then blocks.value else [];
    }

    /** The script the current workspace compiles to. */
    function Script(): seq<BlockDef>
      reads this
    {
      FlowScript(registry, workspace)
    }

    /** Whether compiling the current workspace throws, which `createContext` passes on. */
    predicate CompileThrows()
      reads this
    {
      ScriptThrows(registry, workspace)
    }

    /**
     * `createContext()`: a fresh id map and flow context over the compiled
     * script, with one fresh context per distinct block id, keyed by the id
     * in the order the ids first appear, each at its first definition. The
     * error of a compilation that throws is passed on.
     */
    method CreateContext() returns (r: Result<(BlockTable, FlowContext)>)
      ensures r.Err? <==> CompileThrows()
      ensures r.Ok? ==>
                var (blocks, flow) := r.value;
                && fresh(blocks) && fresh(flow)
                && flow.flowId == id && flow.def == Script() && flow.blocks == blocks && flow.taskManager == taskManager
                && flow.layouts == layouts && flow.host == host
                && Built(flow) && blocks.order == FirstIds(Ids(Script()))
                && forall k :: k in blocks.entries ==> fresh(blocks.entries[k])
    {
      var transpiler := new FlowTranspiler(registry);
      var script := transpiler.TranspileWorkspace(workspace);
      if script.Err? {
        return Err(script.message);
      }
      var blocks := new BlockTable();
      var flow := new FlowContext(id, script.value, blocks, taskManager, layouts, host);
      Populate(flow);
      r := Ok((blocks, flow));
    }

    /** `getBlocks()`: the contexts of a fresh context graph, one per distinct id, in first-appearance order. */
    method GetBlocks() returns (r: Result<seq<FlowBlockContext>>)
      ensures r.Err? <==> CompileThrows()
      ensures r.Ok? ==> |r.value| == |FirstIds(Ids(Script()))|
      ensures r.Ok? ==> forall k :: 0 <= k < |r.value| ==>
                r.value[k].id == FirstIds(Ids(Script()))[k] && FindDef(Script(), r.value[k].id) == Some(r.value[k].index)
    {
      var created := CreateContext();
      if created.Err? {
        return Err(created.message);
      }
      var (blocks, flow) := created.value;
      var values := blocks.Values();
      forall k | 0 <= k < |values|
        ensures values[k].id == blocks.order[k] && FindDef(flow.def, values[k].id) == Some(values[k].index)
      {
        assert flow.Placed(blocks.entries[blocks.order[k]], blocks.order[k]);
      }
      r := Ok(values);
    }

    /** `execute()`: over a fresh context graph, runs each block without a parent, in table order. */
    method Execute(bodies: Bodies) returns (ran: Result<seq<string>>)
      ensures ran.Err? <==> CompileThrows()
      ensures ran.Ok? ==> ran.value == Roots(Script())
    {
      var created := CreateContext();
      if created.Err? {
        return Err(created.message);
      }
      var roots := RunRoots(created.value.1, bodies);
      ran := Ok(roots);
    }

    /**
     * `reload()` as intended: builds a fresh context graph, deletes every
     * stored `'FLOW_TASK'` of this flow, then mounts every block of the graph.
     * When compiling throws, it throws before deleting anything.
     */
    method Reload() returns (r: Result<BlockTable>)
      requires taskManager.runner.Valid()
      modifies taskManager.runner
      ensures taskManager.runner.Valid()
      ensures r.Err? <==> CompileThrows()
      ensures r.Err? ==> taskManager.runner.State() == old(taskManager.runner.State())
      ensures r.Ok? ==> taskManager.runner.State() == DeleteFlowTasks(old(taskManager.runner.State()), old(taskManager.runner.tasks), id)
      ensures r.Ok? ==> r.value.Valid() && r.value.order == FirstIds(Ids(Script()))
      ensures r.Ok? ==> forall k :: k in r.value.entries ==> r.value.entries[k].isMounted
    {
      var created := CreateContext();
      if created.Err? {
        return Err(created.message);
      }
      var blocks := created.value.0;
      DeleteTasksOfFlow(taskManager.runner, id);
      MountAll(blocks);
      r := Ok(blocks);
    }

    /**
     * `reload()` as written: `Taskrunner.indexTasks` does not exist, so
     * after building the context graph it throws, deleting no task and
     * mounting no block.
     */
    method ReloadAsWritten() returns (r: Result<BlockTable>)
      ensures r.Err?
    {
      var created := CreateContext();
      if created.Err? {
        return Err(created.message);
      }
      r := Err("Taskrunner.indexTasks is not a function");
    }

    /** `updateWorkspace(wpc)`: stores the workspace, then reloads from it. */
    method UpdateWorkspace(blocks: seq<Block>) returns (table: Result<BlockTable>)
      requires taskManager.runner.Valid()
      modifies this, taskManager.runner
      ensures taskManager.runner.Valid()
      ensures workspace == blocks
      ensures table.Err? <==> ScriptThrows(registry, blocks)
      ensures table.Err? ==> taskManager.runner.State() == old(taskManager.runner.State())
      ensures table.Ok? ==> taskManager.runner.State() == DeleteFlowTasks(old(taskManager.runner.State()), old(taskManager.runner.tasks), id)
      ensures table.Ok? ==> table.value.Valid() && table.value.order == FirstIds(Ids(FlowScript(registry, blocks)))
      ensures table.Ok? ==> forall k :: k in table.value.entries ==> table.value.entries[k].isMounted
    {
      workspace := blocks;
      table := Reload();
    }

    /**
     * `handleBlockCustomTask(e)`: a task of another flow, or not `'CUSTOM'`,
     * is ignored; otherwise, over a fresh context graph, the task is handed
     * to the block type's `handleTask` with the context of the block id
     * (absent when the script has no such block). A compilation that throws
     * or an unregistered block type throws, and the error is logged.
     */
    method HandleBlockCustomTask(data: TaskData) returns (r: Option<(Dispatch, Option<FlowBlockContext>)>)
      ensures r.None? <==> Route(id, data).None? || CompileThrows() || registry(Route(id, data).value.blockType).None?
      ensures r.Some? ==> r.value.0 == Route(id, data).value
      ensures r.Some? ==> (r.value.1.Some? <==> r.value.0.blockId in Ids(Script()))
      ensures r.Some? && r.value.1.Some? ==>
                r.value.1.value.id == r.value.0.blockId && FindDef(Script(), r.value.0.blockId) == Some(r.value.1.value.index)
    {
      var route := Route(id, data);
      if route.None? {
        return None;
      }
      var created := CreateContext();
      if created.Err? {
        return None;
      }
      var flow := created.value.1;
      if registry(route.value.blockType).None? {
        return None;
      }
      var target := flow.GetBlock(route.value.blockId);
      if target.Some? {
        assert flow.Placed(target.value, route.value.blockId);
      }
      r := Some((route.value, target));
    }

    /**
     * What the subscription in `init()` is for: the scheduler's `k`-th
     * pending timeout fires, and a task it executes, being still stored, is
     * handed to `handleBlockCustomTask`. A task scheduled by a block of this
     * flow thus reaches that block (`RouteOfPayload`).
     */
    method OnFiredTask(k: nat, throws: TaskSpec.Handler -> bool)
      returns (invoked: seq<TaskSpec.Handler>, handled: Option<(Dispatch, Option<FlowBlockContext>)>)
      requires taskManager.runner.Valid() && k < |taskManager.runner.timers|
      modifies taskManager.runner
      ensures taskManager.runner.Valid()
      ensures taskManager.runner.State() == TaskSpec.Fire(old(taskManager.runner.State()), k)
      ensures var task := old(taskManager.runner.timers)[k].task;
              Lookup(old(taskManager.runner.tasks), task.uuid).None? ==> invoked == [] && handled.None?
      ensures var task := old(taskManager.runner.timers)[k].task;
              handled.Some? <==> Lookup(old(taskManager.runner.tasks), task.uuid).Some? && Route(id, task.data).Some? &&
                                 !CompileThrows() && registry(Route(id, task.data).value.blockType).Some?
      ensures handled.Some? ==> handled.value.0 == Route(id, old(taskManager.runner.timers)[k].task.data).value
      ensures handled.Some? ==> (handled.value.1.Some? <==> handled.value.0.blockId in Ids(Script()))
    {
      var task := taskManager.runner.timers[k].task;
      var stored := taskManager.runner.FindTask(task.uuid);
      invoked := taskManager.runner.Fire(k, throws);
      handled := None;
      if stored.Some? {
        handled := HandleBlockCustomTask(task.data);
      }
    }
  }

  /**
   * `new Flow(id, props)` as written: the `ModelWithProps` constructor
   * calls `init()`, whose `Taskrunner.on('task', ...)` calls a method the
   * scheduler class does not have, so construction always throws and no
   * flow is returned.
   */
  method NewFlowAsWritten(id: int, registry: Registry, taskManager: Tasks.TaskManager,
                          layouts: (string, string) -> Option<ParamType>, host: Host, blocks: Option<seq<Block>>)
    returns (r: Result<Flow>)
    ensures r.Err?
  {
    r := Err("Taskrunner.on is not a function");
  }

  /**
   * The context graph `createContext` leaves: a valid id map whose contexts
   * each sit at the first definition of their id.
   */
  ghost predicate Built(flow: FlowContext)
    reads flow.blocks
  {
    flow.blocks.Valid() && flow.Valid() &&
    forall k :: k in flow.blocks.entries ==> FindDef(flow.def, k) == Some(flow.blocks.entries[k].index)
  }

  /** The `forEach` of `createContext`: one fresh context per definition, stored under its id. */
  method Populate(flow: FlowContext)
    requires flow.blocks.Valid() && flow.blocks.entries == map[] && flow.blocks.order == []
    modifies flow.blocks
    ensures Built(flow) && flow.blocks.order == FirstIds(Ids(flow.def))
    ensures forall k :: k in flow.blocks.entries ==> fresh(flow.blocks.entries[k])
  {
    var script := flow.def;
    var blocks := flow.blocks;
    ghost var ids := Ids(script);
    var i := 0;
    while i < |script|
      invariant 0 <= i <= |script|
      invariant Built(flow) && blocks.order == FirstIds(ids[..i])
      invariant forall k :: k in blocks.entries ==> fresh(blocks.entries[k])
    {
      ghost var prev := blocks.entries;
      assert ids[i] in prev <==> ids[i] in blocks.order;
      FirstIdsStep(ids, i);
      Store(flow, i);
      forall k | k in blocks.entries ensures fresh(blocks.entries[k]) {
        if k != ids[i] {
          assert blocks.entries[k] == prev[k];
        }
      }
      i := i + 1;
    }
    assert ids[..i] == ids;
  }

  /** One step of `createContext`'s `forEach`: a fresh context for the `i`-th definition, stored under its id. */
  method Store(flow: FlowContext, i: nat)
    requires Built(flow) && i < |flow.def|
    modifies flow.blocks
    ensures Built(flow)
    ensures flow.blocks.order == if flow.def[i].id in old(flow.blocks.entries) then old(flow.blocks.order)
                                 else old(flow.blocks.order) + [flow.def[i].id]
    ensures flow.blocks.entries.Keys == old(flow.blocks.entries.Keys) + {flow.def[i].id}
    ensures fresh(flow.blocks.entries[flow.def[i].id])
    ensures forall k :: k in old(flow.blocks.entries) && k != flow.def[i].id ==> flow.blocks.entries[k] == old(flow.blocks.entries[k])
  {
    var id := flow.def[i].id;
    var created := FlowBlockContext.Create(id, flow);
    if created.Err? {
      assert false;
    }
    flow.blocks.Put(id, created.value);
  }

  lemma FirstIdsStep(ids: seq<string>, i: nat)
    requires i < |ids|
    ensures FirstIds(ids[..i + 1]) == if ids[i] in FirstIds(ids[..i]) then FirstIds(ids[..i]) else FirstIds(ids[..i]) + [ids[i]]
  {
    assert ids[..i + 1][..i] == ids[..i];
  }

  /** The `forEach` of `execute`: each block of the map without a parent is run, in table order. */
  method RunRoots(flow: FlowContext, bodies: Bodies) returns (ran: seq<string>)
    requires Built(flow) && flow.blocks.order == FirstIds(Ids(flow.def))
    ensures ran == Roots(flow.def)
  {
    var script := flow.def;
    var values := flow.blocks.Values();
    var order := flow.blocks.order;
    ran := [];
    var i := 0;
    while i < |values|
      invariant 0 <= i <= |values|
      invariant ran == Parentless(script, order[..i])
    {
      var block := values[i];
      assert flow.Placed(block, order[i]);
      assert order[..i + 1][..i] == order[..i];
      if !block.HasParent() {
        var _ := block.Execute(bodies);
        ran := ran + [block.id];
      }
      i := i + 1;
    }
    assert order[..i] == order;
  }

  /** The deletion loop of `reload`, as intended, over the stored tasks. */
  method DeleteTasksOfFlow(runner: Tasks.Taskrunner, flowId: int)
    requires runner.Valid()
    modifies runner
    ensures runner.Valid()
    ensures runner.State() == DeleteFlowTasks(old(runner.State()), old(runner.tasks), flowId)
  {
    var tasks := runner.Index();
    var i := 0;
    while i < |tasks|
      invariant 0 <= i <= |tasks|
      invariant DeleteFlowTasks(runner.State(), tasks[i..], flowId) == DeleteFlowTasks(old(runner.State()), tasks, flowId)
      invariant runner.Valid()
    {
      if tasks[i].keyword == FLOW_TASK && tasks[i].data.FlowPayload? && tasks[i].data.flowId == flowId {
        runner.DeleteTask(tasks[i].uuid);
      }
      assert tasks[i..][1..] == tasks[i + 1..];
      i := i + 1;
    }
  }

  /** The mounting loop of `reload`: every context of the map is mounted. */
  method MountAll(blocks: BlockTable)
    requires blocks.Valid()
    modifies set k | k in blocks.entries :: blocks.entries[k]
    ensures blocks.Valid() && blocks.order == old(blocks.order)
    ensures forall k :: k in blocks.entries ==> blocks.entries[k].isMounted
  {
    var values := blocks.Values();
    var i := 0;
    while i < |values|
      invariant 0 <= i <= |values|
      invariant forall k :: 0 <= k < i ==> values[k].isMounted
    {
      values[i].Mount();
      i := i + 1;
    }
    forall k | k in blocks.entries ensures blocks.entries[k].isMounted {
      var j :| 0 <= j < |blocks.order| && blocks.order[j] == k;
    }
  }

  // ---------------------------------------------------------------------
  // Properties
  // ---------------------------------------------------------------------

  /** A task handed back reaches exactly the block that scheduled it, with its own keyword and data. */
  lemma RouteOfPayload(b: FlowBlockContext, keyword: string, data: Value, flowId: int)
    ensures Route(flowId, b.TaskPayload(keyword, data)).Some? <==> flowId == b.flowCtx.flowId
    ensures flowId == b.flowCtx.flowId ==>
              Route(flowId, b.TaskPayload(keyword, data)) == Some(Dispatch(b.def.blockType, b.def.id, keyword, data))
  {
  }

  /** In a compiled script, a block runs at top level exactly when the compiler gave it the root parent. */
  lemma TopLevelRoots(reg: Registry, blocks: seq<Block>, x: string)
    requires forall k :: 0 <= k < |FlowScript(reg, blocks)| ==> FlowScript(reg, blocks)[k].id != ROOT
    requires x in Ids(FlowScript(reg, blocks))
    ensures x in Roots(FlowScript(reg, blocks)) <==>
              FlowScript(reg, blocks)[FindDef(FlowScript(reg, blocks), x).value].parent == ROOT
  {
    var script := FlowScript(reg, blocks);
    FlowScriptParents(reg, blocks);
    var i := FindDef(script, x).value;
    if script[i].parent != ROOT {
      assert ParentAfter(script, i);
      var j :| i < j < |script| && script[j].id == script[i].parent;
      assert Ids(script)[j] == script[i].parent;
    } else {
      assert ROOT !in Ids(script);
    }
    var ids := FirstIds(Ids(script));
    if NoParent(script, x) {
      var k :| 0 <= k < |ids| && ids[k] == x;
    }
  }

  lemma {:induction false} DeleteFlowTasksFrame(r: Runner, tasks: seq<Task>, flowId: int, uuid: string)
    requires forall t :: t in tasks && IsFlowTask(t, flowId) ==> t.uuid != uuid
    ensures View(DeleteFlowTasks(r, tasks, flowId), uuid) == View(r, uuid)
    decreases |tasks|
  {
    if tasks != [] {
      var next := if IsFlowTask(tasks[0], flowId) then Delete(r, tasks[0].uuid) else r;
      DeleteFacts(r, tasks[0].uuid);
      DeleteFlowTasksFrame(next, tasks[1..], flowId, uuid);
    }
  }

  lemma {:induction false} DeleteFlowTasksGone(r: Runner, tasks: seq<Task>, flowId: int, uuid: string)
    requires Lookup(r.tasks, uuid).None? || exists t :: t in tasks && IsFlowTask(t, flowId) && t.uuid == uuid
    ensures Lookup(DeleteFlowTasks(r, tasks, flowId).tasks, uuid).None?
    decreases |tasks|
  {
    if tasks != [] {
      var next := if IsFlowTask(tasks[0], flowId) then Delete(r, tasks[0].uuid) else r;
      DeleteFacts(r, tasks[0].uuid);
      if Lookup(r.tasks, uuid).Some? && !(IsFlowTask(tasks[0], flowId) && tasks[0].uuid == uuid) {
        var t :| t in tasks && IsFlowTask(t, flowId) && t.uuid == uuid;
        assert t in tasks[1..];
      }
      DeleteFlowTasksGone(next, tasks[1..], flowId, uuid);
    }
  }

  /**
   * `reload()`'s deletion, as intended: afterwards no stored task is a flow
   * task of this flow, and nothing about any other uuid changes.
   */
  lemma DeleteFlowTasksOutcome(r: Runner, flowId: int)
    ensures forall t :: t in r.tasks && IsFlowTask(t, flowId) ==>
              Lookup(DeleteFlowTasks(r, r.tasks, flowId).tasks, t.uuid).None?
    ensures forall uuid :: (forall t :: t in r.tasks && IsFlowTask(t, flowId) ==> t.uuid != uuid) ==>
              View(DeleteFlowTasks(r, r.tasks, flowId), uuid) == View(r, uuid)
  {
    forall t | t in r.tasks && IsFlowTask(t, flowId)
      ensures Lookup(DeleteFlowTasks(r, r.tasks, flowId).tasks, t.uuid).None?
    {
      DeleteFlowTasksGone(r, r.tasks, flowId, t.uuid);
    }
    forall uuid | forall t :: t in r.tasks && IsFlowTask(t, flowId) ==> t.uuid != uuid
      ensures View(DeleteFlowTasks(r, r.tasks, flowId), uuid) == View(r, uuid)
    {
      DeleteFlowTasksFrame(r, r.tasks, flowId, uuid);
    }
  }
}
