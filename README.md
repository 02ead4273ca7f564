# A verified model of the hub's flow engine, scheduler and helpers

This project models in Dafny the core of a home-automation hub. Users build
"flows" out of blocks in a visual editor. The hub compiles a flow's workspace
into a flat list of block definitions and builds a graph of block contexts
over that list. It runs the root blocks and lets blocks schedule
continuations through a task scheduler, which later fires them back to the
block that asked.

The model covers these pieces, one module per source component:

- **Task scheduler** (`TaskSpec`, `Tasks`). `Taskrunner` and `TaskManager`
  are classes whose fields change in place. Each of their methods is proved
  to perform one step of a pure specification of the scheduler state. The
  steps are adding, deleting, the periodic check, preparing a task and a
  prepared timeout firing. The clock, the uuid generator and the cron
  library are parameters. Each `setTimeout` is a pending timer that `Fire`
  runs.
- **Flow compiler** (`FlowLayouts`, `FlowScripts`, `FlowTranspilers`,
  `BlocklyTranspilers`). This covers layout normalisation, case-insensitive
  slot lookup, and the two recursive transpilers. The transpilers are proved
  against a functional description of the script they append, which gives
  post-order output and correct parent ids.
- **Flow runtime** (`FlowRuntime`, `Flows`). This covers the id map of block
  contexts, and the walks up parent links for handlers and variables. It
  also covers the statement pointer with its stop flag, parameter coercion,
  and what `Flow` does on reload, execute and fired tasks.
- **Recordings** (`Radix64`, `RecordValues`, `Records`, `RecordManagers`,
  `RecordSets`). The radix-64 codec works on arrays, with round trips and
  order preservation. The `;`-delimited record line has its own round trip.
  The remaining parts are the admission rule, field aliases, sorting, the
  period filter, and datasets.
- **Registries and helpers** (`Models`, `Controllers`, `Extensions`,
  `Languages`, `Users`, `Timers`, `ValueAsserters`, `ObjectUtils`,
  `Databases`). These are listener, model, module and provider registries,
  scoped messages, wildcard permissions, the stopwatch, chained value
  checks, `ensureFind`/`flattenKeys` and `escapeSQLWord`.
- **Devices** (`DeviceConnectors`, `DeviceTraits`). These are the connector
  create/open/destroy protocol, and the open and ready flags that emit only
  on change. They also cover command parameters, displays, device states,
  and the switch, colour and open/close trait handlers over a trait state
  that is replaced, never merged.

`Wrappers` (Option/Result), `Text` (ASCII case, split/join, decimal
integers) and `Js` (the JavaScript values the code relies on: integers and
NaN, truthiness, `typeof`, time values) are shared helpers.

## Model

| member | source | states |
|---|---|---|
| TaskSpec.Lookup | src/lib/Taskrunner.ts:237-239 | `findTask` finds a stored task with exactly that uuid, and finds nothing only when no stored task has it |
| TaskSpec.Without | src/lib/Taskrunner.ts:132-135 | deleting a uuid from memory or from the table keeps exactly the entries with another uuid |
| TaskSpec.UpsertFacts | src/lib/Taskrunner.ts:245-247 | assigning `tasks[row.uuid] = row` makes the row the one found under its uuid, leaves every other uuid's lookup unchanged and keeps uuids distinct |
| TaskSpec.FromRowsFacts | src/lib/Taskrunner.ts:241-250 | the object rebuilt from the table has a property exactly for each uuid occurring in the table, keeps uuids distinct, and holds under each uuid the last row carrying it |
| TaskSpec.WithoutDistinct | src/lib/Taskrunner.ts:132-135 | deleting a uuid keeps the remaining uuids distinct |
| TaskSpec.DeleteFacts | src/lib/Taskrunner.ts:126-139 | deleting an unknown uuid changes nothing; deleting a known one removes it from memory, task state and table, keeps the pending timeouts, and changes nothing about any other uuid |
| TaskSpec.StepFacts | src/lib/Taskrunner.ts:144-170 | one step of the check loop affects only its own task's uuid |
| TaskSpec.CheckTasksOutcome | src/lib/Taskrunner.ts:141-171 | per stored task: being prepared or not due means untouched; a dated task more than 60 s past is deleted with no timeout; a task due within 20 s (dated) or whose next cron occurrence is within 12.5 s is stored, marked as being prepared and given exactly one timeout |
| TaskSpec.CheckTasksUnstored | src/lib/Taskrunner.ts:141-171 | the check changes nothing about a uuid that is not stored |
| TaskSpec.StepKeepsDistinct | src/lib/Taskrunner.ts:144-170 | a step of the check (skip, delete or prepare) keeps stored uuids distinct; preparing never touches the stored tasks |
| TaskSpec.CheckAllKeepsDistinct | src/lib/Taskrunner.ts:141-171 | the whole check keeps stored uuids distinct |
| TaskSpec.AddTaskOutcome | src/lib/Taskrunner.ts:50-95 | an interval that is set and does not parse gives `false` and changes nothing; otherwise the uuid is returned and the new row is stored exactly as given unless the check that follows finds it already expired (both directions) |
| TaskSpec.FireOutcome | src/lib/Taskrunner.ts:190-210 | a timeout firing leaves the pending list; a task no longer stored is not touched; a stored dated task is deleted; a stored repeating task stays with `isBeingPrepared` false; no other uuid changes |
| TaskSpec.AddAndFireKeepDistinct | src/lib/Taskrunner.ts:50-95 | adding a task (insert, refetch, check) and any pending timeout firing keep stored uuids distinct |
| TaskSpec.MatchingFacts | src/lib/Taskrunner.ts:227-231 | the handlers a task reaches are exactly those registered under its keyword, in registration order, and registering more handlers only appends to them |
| TaskSpec.RunUntilThrow | src/lib/Taskrunner.ts:220-234 | the handlers actually run are a prefix of the matching ones; none but the last of them throws, and when the prefix stops short its last handler threw |
| TaskSpec.RunUntilThrowAll | src/lib/Taskrunner.ts:227-231 | when no callback throws, every matching handler runs |
| TaskSpec.RunUntilThrowStops | src/lib/Taskrunner.ts:220-234 | a throwing handler ends the run: no handler registered after it is reached |
| TaskSpec.DeleteOwnedOutcome | src/lib/TaskManager.ts:50-56 | deleting a manager's tasks, as intended, leaves none of its tasks stored and changes nothing about any uuid no task of the manager has |
| Tasks.Taskrunner.constructor | src/lib/Taskrunner.ts:30-31 | the scheduler starts with no tasks in memory, no task state, no timeouts and no managers, and `Valid` (stored uuids distinct) holds |
| Tasks.Taskrunner.FindTask | src/lib/Taskrunner.ts:237-239 | a task with exactly that uuid from memory, and none exactly when no stored task has it |
| Tasks.Taskrunner.Index | src/lib/Taskrunner.ts:122-124 | the stored tasks in property order: every task `findTask` finds is listed, and, uuids being distinct, each listed task is the one found under its uuid |
| Tasks.Taskrunner.GetTaskState | src/lib/Taskrunner.ts:114-116 | the uuid's `isBeingPrepared`, undefined exactly when no state entry exists for it |
| Tasks.Taskrunner.UpdateTaskState | src/lib/Taskrunner.ts:118-120 | the uuid's `isBeingPrepared` is created or replaced and nothing else changes |
| Tasks.Taskrunner.DeleteTask | src/lib/Taskrunner.ts:126-139 | performs `TaskSpec.Delete` on the scheduler state (see `TaskSpec.DeleteFacts`) and keeps `Valid` |
| Tasks.Taskrunner.RefetchTasks | src/lib/Taskrunner.ts:241-250 | rebuilds memory from the table row by row (see `TaskSpec.FromRowsFacts`), establishing `Valid`, and records the fetch time |
| Tasks.Taskrunner.PrepareTaskForExecution | src/lib/Taskrunner.ts:173-215 | performs `TaskSpec.PrepareTask` and keeps `Valid`: an absent task or one already being prepared is left alone; otherwise it is marked and one timeout is set for its date or next cron occurrence, none when the interval does not parse |
| Tasks.Taskrunner.CheckTasks | src/lib/Taskrunner.ts:141-171 | performs `TaskSpec.CheckAll` over the tasks present when it starts and keeps `Valid`, which is what `TaskSpec.CheckTasksOutcome` needs |
| Tasks.Taskrunner.ExecuteTask | src/lib/Taskrunner.ts:217-235 | invokes no handler when the task's manager is unknown; otherwise that manager's handlers for the task's keyword in order, up to and including the first whose callback throws, because the `try` around the loop abandons the rest (`TaskSpec.RunUntilThrow`) |
| Tasks.Taskrunner.Fire | src/lib/Taskrunner.ts:190-210 | performs `TaskSpec.Fire`, keeps `Valid`, and invokes the handlers as `ExecuteTask` does only when the task is still stored |
| Tasks.Taskrunner.AddTask | src/lib/Taskrunner.ts:50-95 | performs `TaskSpec.AddTask` with the meta object built as evidently intended (see `TaskSpec.AddTaskOutcome`) and keeps `Valid` |
| Tasks.Taskrunner.AddTaskAsWritten | src/lib/Taskrunner.ts:63-94 | as written, building the row reads `manager.options.meta`, which throws, so `false` is always returned |
| Tasks.TaskManager.constructor | src/lib/TaskManager.ts:12-20 | a new manager with a fresh id has no handlers and is registered under its id; the scheduler state is unchanged |
| Tasks.TaskManager.Create | src/lib/TaskManager.ts:12-20 | creating a manager fails exactly when its id is already registered, and then registers nothing |
| Tasks.TaskManager.AddHandler | src/lib/TaskManager.ts:22-24 | the handler is appended, so registration order is kept |
| Tasks.TaskManager.AddDelayedTask | src/lib/TaskManager.ts:26-29 | as intended (see Findings, src/lib/Taskrunner.ts:63-75): adds a dated task at `now + msDelay` (time-clipped like `new Date`), owned by this manager |
| Tasks.TaskManager.AddTimedTask | src/lib/TaskManager.ts:31-33 | as intended (see Findings, src/lib/Taskrunner.ts:63-75): adds a dated task at the given date, owned by this manager |
| Tasks.TaskManager.AddRepeatingTask | src/lib/TaskManager.ts:42-44 | as intended (see Findings, src/lib/Taskrunner.ts:63-75): adds a task with the given cron interval and no date, owned by this manager |
| Tasks.TaskManager.DeleteTask | src/lib/TaskManager.ts:46-48 | performs the scheduler's delete of that uuid |
| Tasks.TaskManager.DeleteAllTasksAsWritten | src/lib/TaskManager.ts:50-56 | as written it calls `Taskrunner.listTasks`, which does not exist, so it always rejects |
| Tasks.TaskManager.DeleteAllTasks | src/lib/TaskManager.ts:50-56 | as intended, every task owned by this manager is deleted (see `TaskSpec.DeleteOwnedOutcome`) |
| FlowLayouts.KeepParameters | src/flows/FlowBlockLayout.ts:57-58 | the parameter filter keeps exactly the parameters with a string `id` and a string `type` |
| FlowLayouts.KeepStatements | src/flows/FlowBlockLayout.ts:60-61 | the statement filter keeps exactly the statements with a string `id` |
| FlowLayouts.KeepParametersAppend | src/flows/FlowBlockLayout.ts:58 | the parameter filter keeps the parameters' order |
| FlowLayouts.KeepStatementsAppend | src/flows/FlowBlockLayout.ts:61 | the statement filter keeps the statements' order |
| FlowLayouts.KeepParametersValid | src/flows/FlowBlockLayout.ts:58 | a list of valid parameters passes the filter unchanged |
| FlowLayouts.KeepStatementsValid | src/flows/FlowBlockLayout.ts:61 | a list of valid statements passes the filter unchanged |
| FlowLayouts.ExtendedShape | src/flows/FlowBlockLayout.ts:43-64 | after `extend` the arrays and objects exist, both connection flags are booleans and every slot left has its id (and type) |
| FlowLayouts.ConnectionDefaults | src/flows/FlowBlockLayout.ts:50-55 | a connection flag left unset defaults to "the output has no type"; a flag that is set keeps its truthiness |
| FlowLayouts.ExtendIdempotent | src/flows/FlowBlockLayout.ts:43-64 | applying `extend` to its own output changes nothing |
| FlowLayouts.FindSlot | src/flows/FlowBlockLayout.ts:18-20 | finds nothing exactly when no slot's id equals the query ignoring case, and otherwise a slot whose id matches |
| FlowLayouts.FindSlotIgnoresCase | src/flows/FlowBlockLayout.ts:18-20 | queries that differ only in case find the same slot |
| FlowLayouts.FindOrThrow | src/flows/FlowTranspiler.ts:70 | the lookup over a raw layout array that upper-cases each slot id: when it does not throw it finds what `FindSlot` finds |
| FlowLayouts.FindOrThrowMeaning | src/flows/FlowTranspiler.ts:70 | the lookup throws exactly when a slot with a non-string id is reached before any slot matches |
| FlowLayouts.StringIdsNeverThrow | src/flows/FlowTranspiler.ts:80 | over slots whose ids are all strings the lookup never throws and finds what `FindSlot` finds |
| FlowLayouts.SerializedOpt | src/flows/FlowBlockLayout.ts:28-34 | a model option becomes `{value: id, label: name}` and any other option is kept |
| FlowLayouts.SerializedFacts | src/flows/FlowBlockLayout.ts:22-41 | `serialize` leaves no model among the options, converts each in place, keeps every other option and changes nothing but the options |
| FlowLayouts.SerializedIdempotent | src/flows/FlowBlockLayout.ts:22-41 | serializing twice is serializing once |
| FlowLayouts.SerializedKeepsShape | src/flows/FlowBlockLayout.ts:22-64 | serializing keeps the shape `extend` produced |
| FlowLayouts.FlowBlockLayout.constructor | src/flows/FlowBlockLayout.ts:8-10 | the layout holds the given object as `extend` normalises it |
| FlowLayouts.FlowBlockLayout.Extend | src/flows/FlowBlockLayout.ts:43-64 | the step-by-step updates of `extend` leave the held object as `Extended` says |
| FlowLayouts.FlowBlockLayout.GetParameters | src/flows/FlowBlockLayout.ts:12 | every parameter returned has a string id and type |
| FlowLayouts.FlowBlockLayout.GetStatements | src/flows/FlowBlockLayout.ts:15 | every statement returned has a string id |
| FlowLayouts.FlowBlockLayout.GetParameterOrFail | src/flows/FlowBlockLayout.ts:13-20 | null exactly when no parameter's id matches ignoring case; otherwise the first declared parameter whose id matches |
| FlowLayouts.FlowBlockLayout.GetStatementOrFail | src/flows/FlowBlockLayout.ts:16-20 | null exactly when no statement's id matches ignoring case; otherwise the first declared statement whose id matches |
| FlowLayouts.FlowBlockLayout.Serialize | src/flows/FlowBlockLayout.ts:22-41 | returns the serialized layout; the parameter objects are shared, so the held layout is changed in the same way |
| FlowScripts.SlotsOf | src/flows/FlowTranspiler.ts:52-57 | a block type yields layout slots exactly when the extension registry knows the type (also src/flows/BlocklyTranspiler.ts:68-73) |
| FlowScripts.ChainIds | src/flows/FlowTranspiler.ts:37-49 | the ids along a `next` chain: none for an empty input, starting with the first block's id otherwise |
| FlowScripts.ValueOf | src/flows/FlowTranspiler.ts:23-35 | a parameter input refers to the block it holds, else to its shadow unless that is a `__type_` placeholder, else to null (also src/flows/BlocklyTranspiler.ts:131-143) |
| FlowScripts.EmitShape | src/flows/FlowTranspiler.ts:51-56 | an unregistered block type appends nothing (and its nested blocks are not visited); a registered one appends its own definition last, under the given parent (also src/flows/FlowTranspiler.ts:104) |
| FlowScripts.EmitShadowIsEmit | src/flows/FlowTranspiler.ts:29-31 | a shadow is transpiled exactly like the block `{...shadow, inputs: {}}` |
| FlowScripts.EmitParents | src/flows/FlowTranspiler.ts:51-105 | every definition appended for a block names as parent either the given parent or a block defined after it |
| FlowScripts.EmitInputsParents | src/flows/FlowTranspiler.ts:68-86 | the definitions appended for a block's inputs point, through later definitions, to that block |
| FlowScripts.EmitInputParents | src/flows/FlowTranspiler.ts:69-85 | the definitions appended for one input point, through later definitions, to the owning block |
| FlowScripts.ChainParents | src/flows/FlowTranspiler.ts:37-49 | every block of a statement chain is defined under the chain's parent |
| FlowScripts.FlowScriptParents | src/flows/FlowTranspiler.ts:13-21 | in a compiled workspace every definition is a root block (`'__ROOT__'`) or names a parent defined after it |
| FlowScripts.BlocklyDefParents | src/flows/BlocklyTranspiler.ts:55-65 | the same parent-link closure for the Blockly transpiler |
| FlowScripts.BlocklyChainsParents | src/flows/BlocklyTranspiler.ts:58-62 | the same parent-link closure for the list of top-level chains |
| FlowScripts.BlocklyChainRoots | src/flows/BlocklyTranspiler.ts:58-62 | every registered block of a top-level chain is defined as a root block (also src/flows/BlocklyTranspiler.ts:95-107) |
| FlowScripts.ChainBlocks | src/flows/BlocklyTranspiler.ts:95-107 | the blocks along a `next` chain, matching its ids one for one |
| FlowScripts.InputsSplit | src/flows/FlowTranspiler.ts:68-86 | when no lookup throws: an input whose id names a statement (ignoring case) becomes a statement with its chain's ids; any other input whose id names a parameter becomes a parameter; the rest are dropped (also src/flows/BlocklyTranspiler.ts:109-129) |
| FlowScripts.FieldsAsConstants | src/flows/FlowTranspiler.ts:88-102 | when no lookup throws: the fields whose ids name a parameter become constant parameters, in order; the rest are dropped (also src/flows/BlocklyTranspiler.ts:145-159) |
| FlowScripts.NeverThrows | src/flows/FlowTranspiler.ts:68-102 | when every registered layout has string slot ids, transpiling a block never throws, whatever its inputs, nested blocks and fields |
| FlowScripts.FieldsNeverThrow | src/flows/FlowTranspiler.ts:88-102 | over parameters with string ids, the field loop never throws |
| FlowScripts.ShadowThrowsLikeBlock | src/flows/FlowTranspiler.ts:23-35 | a shadow that is not a `__type_` placeholder is transpiled as a block, so it throws exactly when that block would |
| FlowScripts.FieldsStep | src/flows/FlowTranspiler.ts:88-102 | one more field adds its constant parameter when its id names a parameter, and throws when the lookup reaches a non-string id |
| FlowTranspilers.FlowTranspiler.constructor | src/flows/FlowTranspiler.ts:10-11 | a new transpiler holds an empty script |
| FlowTranspilers.FlowTranspiler.TranspileWorkspace | src/flows/FlowTranspiler.ts:13-21 | throws exactly when some slot lookup of the workspace reaches a non-string id (`FlowScripts.ScriptThrows`); otherwise restarts the script and returns the definitions of the top-level blocks (not their `next` chains), post-order (see `FlowScripts.FlowScriptParents`) |
| FlowTranspilers.FlowTranspiler.TranspileInputValue | src/flows/FlowTranspiler.ts:23-35 | throws exactly when the held block or shadow throws; otherwise appends it and returns the reference `FlowScripts.ValueOf` gives |
| FlowTranspilers.FlowTranspiler.TranspileChildren | src/flows/FlowTranspiler.ts:37-49 | throws exactly when a block of the chain throws; otherwise appends every block of the chain under the parent and returns their ids in order |
| FlowTranspilers.FlowTranspiler.TranspileInput | src/flows/FlowTranspiler.ts:69-85 | throws exactly when a slot lookup reaches a non-string id before a match or a nested block throws; otherwise yields a statement, a parameter or nothing as `FlowScripts.InputsSplit` says, appending its nested blocks |
| FlowTranspilers.FlowTranspiler.StoreAndTranspileBlock | src/flows/FlowTranspiler.ts:51-105 | throws exactly as `FlowScripts.Throws` says; otherwise appends exactly `FlowScripts.Emit` of the block (see `FlowScripts.EmitShape`) |
| FlowTranspilers.FlowTranspiler.TranspileInputs | src/flows/FlowTranspiler.ts:68-86 | the loop over the inputs throws exactly when one of them does; otherwise it appends their nested blocks and collects their statements and parameters in order |
| FlowTranspilers.FlowTranspiler.TranspileFields | src/flows/FlowTranspiler.ts:88-102 | throws exactly when a field's parameter lookup reaches a non-string id; otherwise collects the declared fields as constants (see `FlowScripts.FieldsAsConstants`) |
| BlocklyTranspilers.BlocklyTranspiler.constructor | src/flows/BlocklyTranspiler.ts:37-38 | a new transpiler holds an empty definition |
| BlocklyTranspilers.BlocklyTranspiler.TranspileWorkspace | src/flows/BlocklyTranspiler.ts:55-65 | restarts the definition and returns that of every top-level chain; nothing when `blocks` is not an array |
| BlocklyTranspilers.BlocklyTranspiler.TranspileBlock | src/flows/BlocklyTranspiler.ts:67-93 | appends exactly `FlowScripts.Emit` of the block in the Blockly dialect |
| BlocklyTranspilers.BlocklyTranspiler.TranspileBlockNextTree | src/flows/BlocklyTranspiler.ts:95-107 | appends every block of the chain under the parent and returns their ids in order |
| BlocklyTranspilers.BlocklyTranspiler.TranspileBlockInputs | src/flows/BlocklyTranspiler.ts:109-129 | extends the block's statements and parameters as `FlowScripts.InputsSplit` says, appending nested blocks |
| BlocklyTranspilers.BlocklyTranspiler.TranspileBlockInput | src/flows/BlocklyTranspiler.ts:110-128 | an input holding a block whose id names a statement yields that statement; otherwise a parameter input yields a parameter |
| BlocklyTranspilers.BlocklyTranspiler.TranspileBlockInputValue | src/flows/BlocklyTranspiler.ts:131-143 | appends the held block or shadow and returns the reference `FlowScripts.ValueOf` gives |
| BlocklyTranspilers.BlocklyTranspiler.TranspileBlockFields | src/flows/BlocklyTranspiler.ts:145-159 | extends the parameters with the declared fields as constants |
| FlowRuntime.ExecResult | src/flows/FlowBlockContext/FlowBlockContext.ts:79-94 | a block's `execute()` yields its run's value, or undefined when the run throws or rejects |
| FlowRuntime.FindDef | src/flows/FlowBlockContext/FlowBlockContext.ts:251-259 | finds the first definition with the id, and nothing exactly when the script has none |
| FlowRuntime.AllowedTypes | src/flows/FlowBlockContext/FlowBlockParameterContext.ts:35 | a single layout type becomes a one-element list; a list is kept |
| FlowRuntime.FormatConforms | src/flows/FlowBlockContext/FlowBlockParameterContext.ts:33-63 | `formatValue` returns the value itself when its type is allowed, and otherwise a value of the first allowed type |
| FlowRuntime.FormatValue | src/flows/FlowBlockContext/FlowBlockParameterContext.ts:33-63 | fails exactly when there is no layout, or the value's type is not allowed, the first allowed type is `string` and the value is null or undefined; a value of an allowed type is returned unchanged |
| FlowRuntime.FormatIdempotent | src/flows/FlowBlockContext/FlowBlockParameterContext.ts:33-63 | formatting a formatted value changes nothing |
| FlowRuntime.BlockTable.constructor | src/flows/Flow.ts:62 | the block map starts empty |
| FlowRuntime.BlockTable.Put | src/flows/Flow.ts:69 | `blocks[id] = ctx`: a new key goes last, an existing one keeps its place and gets the new context |
| FlowRuntime.BlockTable.Values | src/flows/Flow.ts:99 | `Object.values(blocks)`: the contexts in key order (also src/flows/FlowContext/FlowContext.ts:18-20) |
| FlowRuntime.FlowContext.constructor | src/flows/FlowContext/FlowContext.ts:12-16 | the flow context holds the flow, the script and the shared block map, with empty meta |
| FlowRuntime.FlowContext.GetBlock | src/flows/FlowContext/FlowContext.ts:18-20 | returns whatever the shared map holds under the id now, and that context sits at its id's definition |
| FlowRuntime.FlowContext.SetMeta | src/flows/FlowContext/FlowContext.ts:22-28 | a later `getMeta` of the key returns the value; other keys are unchanged |
| FlowRuntime.FlowContext.GetMeta | src/flows/FlowContext/FlowContext.ts:26-28 | the value stored under the key, undefined when none was |
| FlowRuntime.FlowBlockContext.constructor | src/flows/FlowBlockContext/FlowBlockContext.ts:51-77 | as intended, with each slot context built from its own definition (see Findings): a context for a definition in the script starts unmounted, with no handlers, variables or listeners, and one parameter and one statement context per id the definition lists |
| FlowRuntime.FlowBlockContext.Create | src/flows/FlowBlockContext/FlowBlockContext.ts:51-60 | constructing fails exactly when the script has no definition with the id (also src/flows/FlowBlockContext/FlowBlockContext.ts:251-259) |
| FlowRuntime.FlowBlockContext.ParentBlock | src/flows/FlowBlockContext/FlowBlockContext.ts:110-112 | the context the flow's map holds under the definition's parent id |
| FlowRuntime.FlowBlockContext.HasParent | src/flows/FlowBlockContext/FlowBlockContext.ts:96-98 | true exactly when the parent id names a block of the flow; never for a root block |
| FlowRuntime.FlowBlockContext.ParentComesLater | src/flows/FlowBlockContext/FlowBlockContext.ts:100-112 | a block's parent is a context of the same flow whose definition comes later, so parent walks end |
| FlowRuntime.CompiledParentsAfter | src/flows/FlowTranspiler.ts:51-105 | a compiled script with unique ids has every parent after its child, which the parent walks rely on (also src/flows/FlowBlockContext/FlowBlockContext.ts:100-112) |
| FlowRuntime.FlowBlockContext.Top | src/flows/FlowBlockContext/FlowBlockContext.ts:100-108 | the top-most ancestor has no parent and belongs to the same flow |
| FlowRuntime.FlowBlockContext.RootBlock | src/flows/FlowBlockContext/FlowBlockContext.ts:100-108 | a block with a parent gets its top-most ancestor, which has no parent; a block without one gets nothing (the source throws) |
| FlowRuntime.FlowBlockContext.RegisterHandler | src/flows/FlowBlockContext/FlowBlockContext.ts:158-160 | the handler is stored under its name and nothing else changes |
| FlowRuntime.FlowBlockContext.HandlerChain | src/flows/FlowBlockContext/FlowBlockContext.ts:180-190 | the values held under the name from this block up to the top, starting with this block's |
| FlowRuntime.FlowBlockContext.GetHandler | src/flows/FlowBlockContext/FlowBlockContext.ts:180-190 | the nearest handler that is a function, from this block up; with none, what the top-most ancestor holds |
| FlowRuntime.ResolveFacts | src/flows/FlowBlockContext/FlowBlockContext.ts:180-206 | the walk yields the first function value met, and the last value when there is none |
| FlowRuntime.FlowBlockContext.InvokeHandler | src/flows/FlowBlockContext/FlowBlockContext.ts:162-178 | true exactly when the handler found is a function that runs without throwing; errors are swallowed |
| FlowRuntime.FlowBlockContext.SetVariable | src/flows/FlowBlockContext/FlowBlockContext.ts:192-194 | the variable is stored under its name and nothing else changes |
| FlowRuntime.FlowBlockContext.VariableChain | src/flows/FlowBlockContext/FlowBlockContext.ts:196-206 | the values held under the name from this block up to the top, starting with this block's |
| FlowRuntime.FlowBlockContext.GetVariable | src/flows/FlowBlockContext/FlowBlockContext.ts:196-206 | as written the walk stops only at a function, so any other value is read from the top-most ancestor |
| FlowRuntime.OwnVariableShadowed | src/flows/FlowBlockContext/FlowBlockContext.ts:196-206 | a variable set on a block is lost to `getVariable` when its parent lacks it, while the intended lookup returns it |
| FlowRuntime.FlowBlockContext.GetVariableNearest | src/flows/FlowBlockContext/FlowBlockContext.ts:196-206 | as intended: the value of the nearest block that defines the variable |
| FlowRuntime.NearestFacts | src/flows/FlowBlockContext/FlowBlockContext.ts:196-206 | the intended lookup is undefined exactly when no block on the way up defines the variable, and otherwise the nearest definition |
| FlowRuntime.NearestOwnValue | src/flows/FlowBlockContext/FlowBlockContext.ts:192-206 | a variable a block sets on itself reads back through the intended lookup whatever its ancestors hold |
| FlowRuntime.FlowBlockContext.Execute | src/flows/FlowBlockContext/FlowBlockContext.ts:79-94 | returns the run's result, undefined when the run throws or rejects |
| FlowRuntime.FlowBlockContext.Listen | src/flows/FlowBlockContext/FlowBlockContext.ts:140-143 | registers the callback on the model's event and remembers the attachment |
| FlowRuntime.FlowBlockContext.Mount | src/flows/FlowBlockContext/FlowBlockContext.ts:235-238 | marks the block mounted and changes nothing else |
| FlowRuntime.FlowBlockContext.Unmount | src/flows/FlowBlockContext/FlowBlockContext.ts:240-249 | detaches every remembered listener from its model, deletes every entry (the array keeps its length, with holes) and clears `isMounted` |
| FlowRuntime.FlowBlockContext.Serialize | src/flows/FlowBlockContext/FlowBlockContext.ts:261-269 | the task `ctx` names this block's type and id and its flow's id |
| FlowRuntime.FlowBlockContext.AddTimedTask | src/flows/FlowBlockContext/FlowBlockContext.ts:208-215 | as intended (see Findings, src/lib/Taskrunner.ts:63-75): schedules a `'FLOW_TASK'` at the date, carrying the `'CUSTOM'` payload for this block |
| FlowRuntime.FlowBlockContext.AddDelayedTask | src/flows/FlowBlockContext/FlowBlockContext.ts:217-224 | as intended (see Findings, src/lib/Taskrunner.ts:63-75): schedules a `'FLOW_TASK'` `msDelay` after now, carrying the payload |
| FlowRuntime.FlowBlockContext.AddRepeatingTask | src/flows/FlowBlockContext/FlowBlockContext.ts:226-233 | as intended (see Findings, src/lib/Taskrunner.ts:63-75): schedules a repeating `'FLOW_TASK'` with the interval, carrying the payload |
| FlowRuntime.FlowBlockStatementContext.constructor | src/flows/FlowBlockContext/FlowBlockStatementContext.ts:7-15 | as intended, over a slot context built from its own definition (see Findings): a statement starts at pointer 0, not stopped, over its definition's children |
| FlowRuntime.FlowBlockStatementContext.Blocks | src/flows/FlowBlockContext/FlowBlockStatementContext.ts:41-43 | as intended, over a slot context built from its own definition (see Findings): the context of each child id, in the ids' order |
| FlowRuntime.FlowBlockStatementContext.ExecuteBlock | src/flows/FlowBlockContext/FlowBlockStatementContext.ts:26-39 | as intended, over a slot context built from its own definition (see Findings): false, running nothing, exactly when no context sits at the index; a run may stop the statement |
| FlowRuntime.FlowBlockStatementContext.Execute | src/flows/FlowBlockContext/FlowBlockStatementContext.ts:17-24 | as intended, over a slot context built from its own definition (see Findings): moves the pointer, then runs the child at the pointer and advances until stopped or past the last child, as `Trace` says |
| FlowRuntime.TraceAll | src/flows/FlowBlockContext/FlowBlockStatementContext.ts:17-24 | with no stop, every child from the pointer on runs once, in order, and the pointer ends past the last |
| FlowRuntime.TraceStops | src/flows/FlowBlockContext/FlowBlockStatementContext.ts:17-47 | a stop raised by a child lets it finish, advances the pointer past it, and no later child runs |
| FlowRuntime.FlowBlockStatementContext.StopExecution | src/flows/FlowBlockContext/FlowBlockStatementContext.ts:45-47 | sets the stop flag and leaves the pointer |
| FlowRuntime.FlowBlockStatementContext.StartExecution | src/flows/FlowBlockContext/FlowBlockStatementContext.ts:49-52 | as intended, over a slot context built from its own definition (see Findings): clears the stop flag and executes from the given pointer, by default the current one |
| FlowRuntime.FlowBlockStatementContext.MovePointer | src/flows/FlowBlockContext/FlowBlockStatementContext.ts:54-56 | sets the pointer and leaves the stop flag |
| FlowRuntime.FlowBlockStatementContext.ResetPointer | src/flows/FlowBlockContext/FlowBlockStatementContext.ts:58-60 | sets the pointer to 0 and leaves the stop flag |
| FlowRuntime.FlowBlockParameterContext.constructor | src/flows/FlowBlockContext/FlowBlockParameterContext.ts:10-13 | as intended, over a slot context built from its own definition (see Findings): the parameter context holds its definition and its layout type |
| FlowRuntime.FlowBlockParameterContext.Value | src/flows/FlowBlockContext/FlowBlockParameterContext.ts:15-31 | as intended, over a slot context built from its own definition (see Findings): a defined constant is formatted without running any block; else the referenced block's execution result; else null; an unknown block or a throwing format never settles |
| FlowRuntime.ParameterValueAsWritten | src/flows/FlowBlockContext/FlowBlockParameterContext.ts:15-31 | as written `this.def` is the block context, which has no `value`, so reading its `constant` throws in the executor and `value()` never settles |
| FlowRuntime.BlocksAsWritten | src/flows/FlowBlockContext/FlowBlockStatementContext.ts:41-43 | as written `this.def.children` is undefined, so `blocks()` throws |
| FlowRuntime.ExecuteBlockAsWritten | src/flows/FlowBlockContext/FlowBlockStatementContext.ts:26-39 | as written `executeBlock` rejects for every index, since `blocks()` throws first |
| FlowRuntime.ExecuteAsWritten | src/flows/FlowBlockContext/FlowBlockStatementContext.ts:17-24 | as written `execute(p)` moves the pointer to `p`, then resolves with no child run when stopped, and otherwise rejects in the loop condition |
| FlowRuntime.StartExecutionAsWritten | src/flows/FlowBlockContext/FlowBlockStatementContext.ts:49-52 | as written `startExecution` clears the stop flag, so the `execute` it runs always rejects, with the pointer at the requested index |
| FlowRuntime.InputsAsWrittenFail | src/flows/FlowBlockContext/FlowBlockContext.ts:66-73 | an input context built with `(p.id, this)` is named after its block, has no layout, never settles a value and never runs a child |
| Flows.Ids | src/flows/Flow.ts:68-70 | the ids of a script's definitions, in script order |
| Flows.FirstIds | src/flows/Flow.ts:62-70 | the keys of the block map: each id once, in the order ids first appear |
| Flows.Parentless | src/flows/Flow.ts:99-103 | keeps exactly the blocks whose context has no parent, in order |
| Flows.Route | src/flows/Flow.ts:75-77 | a fired task is handled exactly when its payload is a `'CUSTOM'` flow task of this flow |
| Flows.Flow.constructor | src/flows/Flow.ts:13-25 | with the defaults applied as intended, a new flow holds the workspace its props give, else the default, empty one (as written construction throws: see Findings) |
| Flows.NewFlowAsWritten | src/flows/Flow.ts:50-52 | as written every `new Flow(...)` throws: the `init()` the constructor calls uses `Taskrunner.on`, which the scheduler lacks (also src/lib/ModelWithProps.ts:25-32) |
| Flows.Flow.CreateContext | src/flows/Flow.ts:58-73 | throws exactly when compiling the workspace throws; otherwise a fresh block map and flow context over the compiled workspace, one fresh context per distinct block id, keyed in first-appearance order |
| Flows.Populate | src/flows/Flow.ts:68-70 | the `forEach` stores a fresh context under each definition's id; a repeated id keeps its place in the map |
| Flows.Store | src/flows/Flow.ts:69 | one step of that `forEach`: the id's entry is (re)placed by a fresh context and every other entry is unchanged |
| Flows.Flow.GetBlocks | src/flows/Flow.ts:54-56 | throws exactly when compiling throws; otherwise the contexts of a fresh graph, one per distinct id, in first-appearance order |
| Flows.Flow.Execute | src/flows/Flow.ts:96-104 | throws exactly when compiling throws; otherwise runs exactly the blocks without a parent, in map order |
| Flows.RunRoots | src/flows/Flow.ts:99-103 | the loop of `execute` runs each block of the map that has no parent |
| Flows.TopLevelRoots | src/flows/Flow.ts:96-104 | in a compiled script, a block is run by `execute` exactly when the compiler gave it the root parent (also src/flows/FlowTranspiler.ts:63-65) |
| Flows.Flow.Reload | src/flows/Flow.ts:32-48 | as intended: throws, changing nothing, exactly when compiling throws; otherwise every stored `'FLOW_TASK'` of this flow is deleted and every block of a fresh graph is mounted; the scheduler stays `Valid` |
| Flows.Flow.ReloadAsWritten | src/flows/Flow.ts:32-48 | as written it calls `Taskrunner.indexTasks`, which does not exist, so it throws before deleting or mounting anything |
| Flows.DeleteTasksOfFlow | src/flows/Flow.ts:36-42 | the deletion loop performs `DeleteFlowTasks` on the scheduler |
| Flows.DeleteFlowTasksOutcome | src/flows/Flow.ts:36-42 | afterwards no stored task is a flow task of this flow, and nothing about any other uuid changes |
| Flows.MountAll | src/flows/Flow.ts:44-47 | every context of the map is mounted |
| Flows.Flow.UpdateWorkspace | src/flows/Flow.ts:27-30 | stores the workspace, then reloads from it as intended; throws exactly when compiling the new workspace throws |
| Flows.Flow.HandleBlockCustomTask | src/flows/Flow.ts:75-94 | ignores tasks of other flows or not `'CUSTOM'`; logs and drops a task when compiling throws or the block type is unregistered; otherwise hands the original keyword and data to the block type, with the block's context exactly when the script has that block |
| Flows.Flow.OnFiredTask | src/flows/Flow.ts:50-52 | as intended, a timeout firing performs the scheduler's `Fire`, and a task it executes is handed to `handleBlockCustomTask`: dispatched exactly when still stored, routed to this flow, compiled and of a registered block type, with the routed keyword and data |
| Flows.RouteOfPayload | src/flows/Flow.ts:75-88 | a task a block schedules through its context comes back to exactly that block, with its own keyword and data (also src/flows/FlowBlockContext/FlowBlockContext.ts:208-233, src/flows/FlowBlockContext/FlowBlockContext.ts:261-269) |
| Radix64.AlphabetAscending | src/utils/radix64.ts:6-7 | the alphabet's 64 characters are in strictly ascending character order, so it has no repeats |
| Radix64.AlphabetInverse | src/utils/radix64.ts:7-12 | `ALPHABET_FLIPPED` maps the character of digit `d` back to `d`, for each of the 64 digits, and maps nothing else |
| Radix64.BuildFlipped | src/utils/radix64.ts:9-12 | the loop that fills `ALPHABET_FLIPPED` yields exactly the alphabet's characters, each mapped to its position |
| Radix64.ValueBound | src/utils/radix64.ts:119-129 | a string of `k` digits decodes to less than 64^k |
| Radix64.EncodeValid | src/utils/radix64.ts:72-81 | every character `encodeInt` writes is in the alphabet |
| Radix64.MinDigits | src/utils/radix64.ts:64-70 | without a length, the width is the fewest digits (at least one) whose range holds the number |
| Radix64.EncodeInt | src/utils/radix64.ts:58-82 | fails exactly when a given length cannot hold the number (or, without a length, the number is negative); otherwise gives the number's low base-64 digits at that width, padded with `ALPHABET[0]` |
| Radix64.WriteDigits | src/utils/radix64.ts:72-81 | the two loops fill the character array with the number's digits from the right and pad the rest with `ALPHABET[0]` |
| Radix64.EncodeZero | src/utils/radix64.ts:78-80 | zero encodes as `ALPHABET[0]` repeated over the whole width |
| Radix64.DecodeToInt | src/utils/radix64.ts:119-129 | the do-while loop computes the digits' base-64 value, NaN as soon as a character is not in the alphabet (including the empty string, whose `string[0]` is undefined) |
| Radix64.EncodeValue | src/utils/radix64.ts:58-82 | an encoding at width `L` holds the number reduced modulo 64^L |
| Radix64.IntRoundTrip | src/utils/radix64.ts:58-129 | `decodeToInt(encodeInt(n, L)) == n` whenever `n` fits in `L` digits |
| Radix64.IntRoundTripMinimal | src/utils/radix64.ts:58-129 | `decodeToInt(encodeInt(n)) == n` for every natural `n` when no length is given |
| Radix64.LeadingPadding | src/utils/radix64.ts:119-129 | leading `ALPHABET[0]` characters do not change the decoded value |
| Radix64.LexLessValue | src/utils/radix64.ts:6-7 | for valid strings of one length, string order implies numeric order |
| Radix64.EncodeOrder | src/utils/radix64.ts:58-82 | for encodings of one width, `n < m` exactly when the encoding of `n` sorts before that of `m`, which is why the alphabet is sorted (also src/utils/radix64.ts:6-7) |
| Radix64.EncodeBuffer | src/utils/radix64.ts:14-56 | `encodeBuffer` gives the buffer's big-endian value in base 64 at the given width, or at `ceil(8n/6)` digits when none is given |
| Radix64.EmitPass | src/utils/radix64.ts:21-43 | each pass of the `switch (i % 4)` places the next base-64 digit of what remains to be emitted |
| Radix64.FinishEncode | src/utils/radix64.ts:46-53 | the tail writes the pending hang bits and pads the front with `ALPHABET[0]`, completing the encoding |
| Radix64.DecodeToBuffer | src/utils/radix64.ts:84-117 | with `bytes`, gives the string's value as big-endian bytes of that length (higher bytes dropped); without `bytes`, `Buffer.from` of a number throws |
| Radix64.DecodeInto | src/utils/radix64.ts:85-114 | the loop and its tail leave in the buffer, whatever it held, the string's value as big-endian bytes of the buffer's length |
| Radix64.DecodePass | src/utils/radix64.ts:88-107 | each pass of the `switch (i % 4)` stores the digit's bits in the right byte and keeps the decoding invariant |
| Radix64.DecodeLow | src/utils/radix64.ts:91-93 | a pass with `i % 4 == 1` starts the byte at the index with the digit's six bits, keeping the decoding invariant |
| Radix64.DecodeSecond | src/utils/radix64.ts:94-97 | a pass with `i % 4 == 2` completes the byte with the digit's low two bits and starts the byte before it with the other four, keeping the decoding invariant |
| Radix64.DecodeThird | src/utils/radix64.ts:98-101 | a pass with `i % 4 == 3` completes the byte with the digit's low four bits and starts the byte before it with the other two, keeping the decoding invariant |
| Radix64.DecodeHigh | src/utils/radix64.ts:102-104 | a pass with `i % 4 == 0` completes the byte with the digit's six bits as its top bits, keeping the decoding invariant |
| Radix64.FinishDecode | src/utils/radix64.ts:109-114 | the tail zero-fills the bytes before the last one written, completing the decoding |
| Radix64.BytesOfValue | src/utils/radix64.ts:84-117 | reading bytes as a number and writing it back at the same width gives the bytes back |
| Radix64.BufferRoundTrip | src/utils/radix64.ts:14-117 | decoding `encodeBuffer(b, L)` into a buffer of `b`'s length gives `b` back whenever `L` digits hold all its bits; the default length always does |
| RecordValues.Lookup | src/records/ImmutableRecord.ts:32-34 | a values object has a value under a key exactly when one of its properties has that key, and then returns that property's value |
| RecordValues.AssignLookup | src/records/MutableRecord.ts:22-23 | after `values[key] = value` the key reads back the value and every other key reads as before |
| RecordValues.AssignShape | src/records/MutableRecord.ts:22-23 | assigning a new key appends it after the existing properties, and keys stay distinct |
| RecordValues.ValueTable.Set | src/records/MutableRecord.ts:22-23 | the shared values object is updated by that assignment |
| RecordValues.GetField | src/records/RecordManager.ts:344-350 | `getField` returns the first field whose name, id or alias matches the search, and fails exactly when no field matches |
| RecordValues.AliasOf | src/records/RecordManager.ts:269 | a field's alias is the single character with code `id + 65` |
| Records.SecondsRange | src/records/ImmutableRecord.ts:69 | rounding a valid non-negative date to whole seconds gives a non-negative count whose milliseconds are still a valid date |
| Records.NoDelimiterInDigits | src/records/ImmutableRecord.ts:9 | the radix-64 date cell never contains the cell delimiter `;` (also src/records/ImmutableRecord.ts:69) |
| Records.NoDelimiterInNumber | src/records/ImmutableRecord.ts:75-78 | a number's text never contains `;`, so the delimiter check in `compress` never fails for a number |
| Records.CellRoundTrip | src/records/ImmutableRecord.ts:49-81 | a value cell built by `compress` reads back under the same key with the same value |
| Records.CellsRoundTrip | src/records/ImmutableRecord.ts:49-81 | the value cells built by `compress` contain no delimiter and read back as the same values, in order |
| Records.CompressRoundTrip | src/records/ImmutableRecord.ts:44-84 | `decompress(compress(r))` restores the values of a record whose keys are field names, and its date rounded to whole seconds |
| Records.ImmutableRecord.constructor | src/records/ImmutableRecord.ts:15-18 | the record holds the given date and values object |
| Records.ImmutableRecord.IsMutable | src/records/ImmutableRecord.ts:20-22 | an immutable record reports itself as not mutable |
| Records.ImmutableRecord.GetDate | src/records/ImmutableRecord.ts:24-26 | returns the record's date (a copy, which here is a value) |
| Records.ImmutableRecord.GetValues | src/records/ImmutableRecord.ts:28-30 | returns the record's properties (a copy, as a value) |
| Records.ImmutableRecord.GetValue | src/records/ImmutableRecord.ts:32-34 | returns the value stored under the field id, or the fallback when there is none |
| Records.ImmutableRecord.IsValid | src/records/ImmutableRecord.ts:40-42 | true exactly when the date is not NaN |
| Records.ImmutableRecord.Compress | src/records/ImmutableRecord.ts:65-84 | builds the line `compress` produces: the rounded date in radix 64, then one alias-prefixed cell per value, the first failing field lookup deciding the error |
| Records.PushCells | src/records/ImmutableRecord.ts:66-83 | starting from the date cell, pushes one cell per value in property order, and stops with the first value's error |
| Records.MakeCell | src/records/ImmutableRecord.ts:71-80 | a value's cell is its field's alias followed by its text; an unknown field or a text holding ';' fails |
| Records.ImmutableRecord.Decompress | src/records/ImmutableRecord.ts:44-58 | fails exactly when a cell's field cannot be resolved; otherwise builds a record holding the decoded date and values |
| Records.DecodeInto | src/records/ImmutableRecord.ts:49-55 | stores each cell's value under its key, in order, and fails exactly when the decoding of the cells fails |
| Records.MutableRecord.constructor | src/records/MutableRecord.ts:9-11 | a new mutable record is dated now and holds no values |
| Records.MutableRecord.IsMutable | src/records/MutableRecord.ts:31-33 | a mutable record reports itself as mutable |
| Records.MutableRecord.SetDate | src/records/MutableRecord.ts:13-15 | replaces the date and leaves the values alone |
| Records.MutableRecord.AddValue | src/records/MutableRecord.ts:17-23 | succeeds exactly for a number other than NaN, which is then assigned under the field name; otherwise nothing changes |
| Records.MutableRecord.AddValues | src/records/MutableRecord.ts:25-29 | assigns the properties in order up to the first invalid one, and succeeds exactly when there is none |
| Records.FirstInvalid | src/records/MutableRecord.ts:25-29 | locates the first property `addValue` rejects: every earlier one is a valid number and it is not |
| Records.MutableRecord.ToImmutable | src/records/MutableRecord.ts:35-37 | a new immutable record with the same date, sharing the same values object |
| RecordManagers.RecordManager.constructor | src/records/RecordManager.ts:44-58 | a new manager holds no records in memory, no latest record and no fields |
| RecordManagers.RecordManager.Add | src/records/RecordManager.ts:73-94 | a record is stored exactly when recording is enabled with `true` and, with a positive interval, it is dated at least that many seconds after the latest record; then an immutable record is stored as it is and a mutable one as a fresh record sharing its values; otherwise nothing changes |
| RecordManagers.RecordManager.Store | src/records/RecordManager.ts:297-316 | appends the record (a mutable one converted to an immutable record sharing its values) to memory, makes it the latest and arms the flush timer once memory holds at least 10 records |
| RecordManagers.RecordManager.Flush | src/records/RecordManager.ts:318-342 | hands over everything in memory, in order, and empties memory |
| RecordManagers.RecordManager.InitLoadFields | src/records/RecordManager.ts:260-272 | rebuilds the fields from the manifest in order, each with the alias of its id |
| RecordManagers.LoadedFieldsResolve | src/records/RecordManager.ts:260-272 | loaded fields with distinct small ids resolve each field name to a field whose alias resolves back to it, so compressed records read back under their names (also src/records/RecordManager.ts:344-350) |
| RecordManagers.SortByTime | src/records/RecordManager.ts:194-196 | sorting gives a permutation of the records ordered by time, ascending or descending |
| RecordManagers.Within | src/records/RecordManager.ts:190 | the filter keeps exactly the records inside the closed period |
| RecordManagers.WithinAppend | src/records/RecordManager.ts:186-190 | filtering the concatenated day files equals filtering each file and concatenating; one record is kept exactly when it lies in the period |
| RecordManagers.ReadPeriod | src/records/RecordManager.ts:168-192 | fails exactly when a date is invalid; otherwise the bounds are put in order and exactly the read records inside the closed period are returned |
| RecordSets.SnapshotOf | src/records/RecordSet.ts:19-20 | what `getDataSets` reads of each record: its time and its values |
| RecordSets.Find | src/records/RecordSet.ts:21 | locates the data set of a key, or reports that there is none |
| RecordSets.AddPointFacts | src/records/RecordSet.ts:21-25 | adding a value extends exactly its key's series, creating it on first use, and keeps ids distinct |
| RecordSets.AddRecordFacts | src/records/RecordSet.ts:20-26 | the inner loop adds each of a record's values to its key's series, in order |
| RecordSets.DataSetsFacts | src/records/RecordSet.ts:16-31 | one data set per key any record holds, ids distinct; each holds its key's values record by record with the record's time; no value lost or duplicated |
| RecordSets.RecordSet.constructor | src/records/RecordSet.ts:8-10 | the set holds the given records |
| RecordSets.RecordSet.Copy | src/records/RecordSet.ts:33-35 | a new set over the same records |
| RecordSets.RecordSet.GetDataSets | src/records/RecordSet.ts:16-31 | the loop builds `DataSetsOf` the records (see `RecordSets.DataSetsFacts`) |
| Models.Callback.constructor | src/lib/Model.ts:43-46 | a callback, or the wrapper `once` builds around one, remembering what it forwards to |
| Models.Without | src/lib/Model.ts:69 | the filter keeps exactly the listeners with another callback |
| Models.WithoutAppend | src/lib/Model.ts:69 | the listeners that remain keep their order |
| Models.WithoutShrinks | src/lib/Model.ts:66-75 | `off` shortens the list exactly when the callback was registered, and otherwise leaves it as it was |
| Models.Invoked | src/lib/Model.ts:77-84 | an emission runs one callback per listener, in list order, a `once` wrapper running the callback it wraps (also src/lib/ModelEvent.ts:27-44) |
| Models.Model.constructor | src/lib/Model.ts:37-40 | a new model has its type name and id and no listeners |
| Models.Model.On | src/lib/Model.ts:51-64 | a listener is added exactly when its key is undefined or no listener of the event has that key; otherwise nothing changes |
| Models.Model.Off | src/lib/Model.ts:66-75 | removes every listener of the event with that callback, and reports true exactly when there was one |
| Models.Model.Once | src/lib/Model.ts:42-49 | registers a fresh wrapper around the callback, under the same key rule as `on` |
| Models.OnceDetached | src/lib/Model.ts:42-49 | an emission detaches every `once` wrapper it ran from its event |
| Models.StaysDetached | src/lib/Model.ts:66-75 | `off` never registers anything, so a detached callback stays detached |
| Models.Model.Emit | src/lib/Model.ts:77-84 | as intended: runs the listeners current when the emission starts, in order, after which every `once` wrapper among them is detached |
| Models.Model.EmitAsWritten | src/lib/Model.ts:77-84 | as written: the listener records reach `ModelEvent`, which calls only functions (also src/lib/ModelEvent.ts:27-44) |
| Models.EmitRunsNothingAsWritten | src/lib/Model.ts:82-84 | as written an emission runs no listener, which differs from the intended emission whenever the event has listeners (also src/lib/ModelEvent.ts:28-29) |
| Models.Model.ToString | src/lib/Model.ts:89-92 | a bracketed text starting with the type name, exactly `[Type]` when the id is falsy |
| Models.IdTextNonEmpty | src/lib/Model.ts:91 | a truthy id has non-empty text |
| Controllers.Values | src/lib/Controller.ts:15 | `Object.values` lists the models of the table in table order, one per entry |
| Controllers.Filter | src/lib/Controller.ts:19 | keeps only models the predicate finds truthy, and every such model is kept |
| Controllers.FilterAppend | src/lib/Controller.ts:19 | filtering keeps index order (it distributes over concatenation) |
| Controllers.FilterCounts | src/lib/Controller.ts:19 | an accepted model keeps its multiplicity, a rejected one disappears |
| Controllers.First | src/lib/Controller.ts:30-40 | `_.find` gives nothing exactly when no model is accepted, and otherwise an accepted model of the list |
| Controllers.Lookup | src/lib/Controller.ts:23 | `table[id]` is an entry stored under the id, or undefined exactly when no entry has that id |
| Controllers.LookupStored | src/lib/Controller.ts:23-54 | with unique ids, looking up a stored id gives the model stored under it |
| Controllers.Controller.constructor | src/lib/Controller.ts:12 | a controller starts with no data |
| Controllers.Controller.Store | src/lib/Controller.ts:52-54 | replaces the whole table |
| Controllers.Controller.Load | src/lib/Controller.ts:56-59 | the base `load` always fails with "not implemented" |
| Controllers.Controller.IndexObject | src/lib/Controller.ts:61-65 | fails, naming the controller, exactly when nothing was stored |
| Controllers.Controller.Index | src/lib/Controller.ts:14-16 | fails exactly when nothing was stored, and otherwise lists the stored models in order |
| Controllers.Controller.IndexBy | src/lib/Controller.ts:18-20 | fails exactly when nothing was stored, and otherwise holds exactly the stored models the predicate accepts |
| Controllers.Controller.Find | src/lib/Controller.ts:22-24 | fails exactly when nothing was stored; otherwise a model stored under the id, or nothing when no entry has the id |
| Controllers.Controller.FindBy | src/lib/Controller.ts:26-44 | null for an argument that is neither a function nor a string; otherwise fails exactly when nothing was stored, and finds nothing exactly when no stored model is accepted (by the predicate, or by props holding the value under the key), else the first accepted model in storage order |
| Controllers.Controller.Exists | src/lib/Controller.ts:48-50 | fails exactly when nothing was stored, and otherwise is true exactly when some entry has the id |
| Controllers.StoreThenFind | src/lib/Controller.ts:22-54 | after `store`, `find` gives the model stored under each id |
| Extensions.AsProvider | src/extensions/ExtensionModule.ts:106 | a function is registered as itself, any other value as a provider returning it |
| Extensions.ExtensionModule.constructor | src/extensions/ExtensionModule.ts:55-80 | a new module has its name, no providers, is not activated, and holds the initial data only when it is truthy |
| Extensions.ExtensionModule.RegisterProvider | src/extensions/ExtensionModule.ts:97-108 | fails outside activation for any id but `activate`, fails for an id already registered, and otherwise adds exactly that provider |
| Extensions.ExtensionModule.HasProvider | src/extensions/ExtensionModule.ts:118-120 | every stored provider is a function, so `typeof` is `'function'` exactly for the ids registered (`RegisterProvider` makes it true for the id it accepts) |
| Extensions.ExtensionModule.CallProvider | src/extensions/ExtensionModule.ts:110-120 | fails with the "No provider" message exactly when no function is registered under the id; a wrapped value is returned as it was given |
| Extensions.RegisterTwice | src/extensions/ExtensionModule.ts:102-104 | a second registration under an id fails and keeps the first provider |
| Extensions.ActivationGate | src/extensions/ExtensionModule.ts:97-115 | before activation only `activate` can be registered; after it other providers can, and calling a value provider returns the value (also src/extensions/Extension.ts:126-136) |
| Extensions.Extension.constructor | src/extensions/Extension.ts:31-38 | a new extension is named by its manifest and has no modules |
| Extensions.Extension.RegisterModule | src/extensions/Extension.ts:44-51 | files the module under its type and name, replacing any module there |
| Extensions.RegisteredLookup | src/extensions/Extension.ts:44-83 | after registering, the module is found under its type and name and every other lookup is unchanged |
| Extensions.Extension.GetModuleOrFail | src/extensions/Extension.ts:75-83 | the module registered under the type and name, or null exactly when there is none |
| Extensions.Extension.GetModule | src/extensions/Extension.ts:59-67 | the same module, or the "is not registered" error naming type, extension and module exactly when there is none |
| Extensions.Extension.ActivateModule | src/extensions/Extension.ts:126-136 | a module with an `activate` provider is marked activated and its provider is called; any other module is left alone |
| Extensions.SplitParts | src/extensions/Extension.ts:170 | splitting at dots gives several parts exactly when the id holds a dot |
| Extensions.ParseModuleIdSplitsAtFirstDot | src/extensions/Extension.ts:169-173 | the extension part holds no dot, and the two parts rejoin to the whole id; an id without a dot has an empty module name |
| Extensions.ParseModuleIdOfModuleId | src/extensions/Extension.ts:169-173 | parsing undoes the module id built as `extension.id + '.' + name`, for an extension id without a dot (also src/extensions/ExtensionModule.ts:129) |
| Extensions.PrefixBeforeDot | src/extensions/Extension.ts:169-173 | two ways of splitting a string at a first dot agree |
| Languages.ScopedId | src/localization/Language.ts:27-30 | an id is kept as it is exactly when it starts with `@` or the scope is empty, and otherwise becomes `scope.id` |
| Languages.ScopedIdInjective | src/localization/Language.ts:27-30 | under a scope not starting with `@`, distinct ids stay distinct |
| Languages.GlobalIdsStayGlobal | src/localization/Language.ts:27-28 | an `@` id, or any id under an empty scope, is filed under itself |
| Languages.ScopedKeys | src/localization/Language.ts:24-33 | the scoped batch holds exactly the scoped ids of its messages |
| Languages.ScopedKeepsEach | src/localization/Language.ts:24-33 | each message of a batch with unique ids is filed under its scoped id |
| Languages.Language.constructor | src/localization/Language.ts:17-21 | a new language has no messages |
| Languages.Language.AddMessages | src/localization/Language.ts:23-36 | the scoped batch is merged over the known messages |
| Languages.AddedMessages | src/localization/Language.ts:23-36 | after adding, each message of the batch is found under its scoped id, and every other known message is unchanged |
| Languages.AddMessagesIdempotent | src/localization/Language.ts:35 | adding the same batch twice gives the messages of adding it once |
| Users.TrimDots | src/users/User.ts:47 | `trimStart(s, '.')` is the suffix of `s` left once every leading dot is dropped, and does not itself start with a dot |
| Users.TrimNoDot | src/users/User.ts:47 | a string that does not start with a dot is kept |
| Users.TrimDot | src/users/User.ts:47 | a leading dot is dropped |
| Users.WildcardEntries | src/users/User.ts:45-47 | one wildcard entry per prefix of the parts, from the empty prefix to the whole key |
| Users.WildcardEnds | src/users/User.ts:45-47 | the least specific wildcard is `*`, the most specific is the key followed by `.*` |
| Users.HasPermission | src/users/User.ts:24-53 | permission is granted only with a plain permissions object and an argument that names a key |
| Users.KeyForms | src/users/User.ts:29-37 | a string is its own key; a model names the three-part key `Type.id.action`; any other argument is denied |
| Users.NotPlainDenies | src/users/User.ts:39-41 | missing or non-plain permissions deny everything |
| Users.ExactDecides | src/users/User.ts:43 | a boolean entry for the exact key decides the result, whatever the wildcards say |
| Users.SearchDecidedBy | src/users/User.ts:46-52 | the wildcard search grants exactly when some wildcard has a `true` entry and every more specific wildcard has none |
| Users.SpecificOverrides | src/users/User.ts:46-50 | the most specific wildcard with an entry decides, whatever the less specific ones say |
| Users.NothingGrants | src/users/User.ts:43-52 | with no boolean exact entry and no wildcard entry, permission is denied |
| Timers.Describe | src/lib/Timer.ts:23-26 | `[Timer]` exactly when either time is unset; otherwise the elapsed milliseconds in decimal followed by `ms` |
| Timers.Timer.constructor | src/lib/Timer.ts:5-9 | a timer is started at the current time unless `start` is false, and has no end |
| Timers.Timer.Start | src/lib/Timer.ts:11-14 | records the current time unless a start time is already set |
| Timers.Timer.End | src/lib/Timer.ts:16-21 | the first end records the time and describes the timer; a later one changes nothing and returns undefined |
| Timers.Timer.ToString | src/lib/Timer.ts:23-26 | `[Timer]` exactly when a start or end time is missing; otherwise the elapsed milliseconds followed by `ms`, which parse back to the difference |
| Timers.StartThenEnd | src/lib/Timer.ts:5-26 | a timer started at a non-zero time reports the elapsed time on its first end and nothing on its second |
| ValueAsserters.PassesMeaning | src/lib/ValueAsserter.ts:8-18 | `isDefined` accepts all but undefined and null, `isNumber` exactly the numbers other than NaN, `isString` exactly the strings |
| ValueAsserters.RangeMeaning | src/lib/ValueAsserter.ts:20-30 | `isMin`, `isMax` and `isBetween` accept exactly the numbers within their bounds, never NaN |
| ValueAsserters.Run | src/lib/ValueAsserter.ts:35-52 | a passing check returns an asserter for the same value |
| ValueAsserters.FirstFailure | src/lib/ValueAsserter.ts:35-52 | the position of the first check in a chain that the value fails: every check before it passes and that one does not |
| ValueAsserters.Chain | src/lib/ValueAsserter.ts:35-52 | a chain of checks succeeds exactly when every check passes, returning an asserter for the same value, and otherwise throws the first failing check's message with its bounds substituted, as evidently intended (`Message`; the as-written text is in Findings) |
| ValueAsserters.Placeholder | src/lib/ValueAsserter.ts:44 | the text searched for is a `%` placeholder |
| ValueAsserters.FailureMessage | src/lib/ValueAsserter.ts:43-46 | the loop applies one replacement per argument, from the last down to the first |
| ValueAsserters.ReplaceSkips | src/lib/ValueAsserter.ts:44 | `replace` passes over a prefix where the pattern cannot start |
| ValueAsserters.ReplacesFirst | src/lib/ValueAsserter.ts:44 | `replace` with a string pattern replaces the first occurrence |
| ValueAsserters.ReplacePassesPlaceholder | src/lib/ValueAsserter.ts:44 | the search for one placeholder passes over a different one |
| ValueAsserters.KeepsOne | src/lib/ValueAsserter.ts:44 | a message whose only placeholder differs from the pattern is left as it is |
| ValueAsserters.OneArgumentAsWritten | src/lib/ValueAsserter.ts:20-46 | as written, the message of `isMin` and `isMax` keeps its `%1` |
| ValueAsserters.BetweenAsWritten | src/lib/ValueAsserter.ts:28-46 | as written, the message of `isBetween` keeps both `%1` and `%2` |
| ValueAsserters.MessagesAsWritten | src/lib/ValueAsserter.ts:7-46 | as written, no failure message has a placeholder substituted |
| ValueAsserters.PlaceholderSurvives | src/lib/ValueAsserter.ts:20-46 | the message as written differs from the intended one |
| ValueAsserters.IntendedPlaceholders | src/lib/ValueAsserter.ts:43-46 | as intended, step 1 searches for `%1` and step 2 for `%2` |
| ValueAsserters.OneArgumentIntended | src/lib/ValueAsserter.ts:20-26 | as intended, the message of `isMin` and `isMax` names its bound |
| ValueAsserters.TwoPlaceholders | src/lib/ValueAsserter.ts:43-46 | as intended, two arguments fill `%1` and `%2` of a message with no other `%` |
| ValueAsserters.BetweenIntended | src/lib/ValueAsserter.ts:28-30 | as intended, the message of `isBetween` names both bounds |
| ObjectUtils.EnsureFind | src/utils/object.ts:10-21 | an element the predicate accepts, the first one, exactly when there is one; otherwise the given error |
| ObjectUtils.FlattenIsAssign | src/utils/object.ts:4-8 | `flattenKeys` assigns the non-object leaves, depth first, under their joined paths |
| ObjectUtils.MembersAreAssign | src/utils/object.ts:7 | the `_.reduce` over an object's members assigns the leaves of those members in order |
| ObjectUtils.MergeAssign | src/utils/object.ts:7 | merging a flattened member into the accumulator assigns its leaves on top |
| ObjectUtils.AssignConcat | src/utils/object.ts:7 | assigning two runs of leaves is assigning the first and then the second |
| ObjectUtils.AssignKeys | src/utils/object.ts:6-7 | the keys after assigning are the starting keys and the joined paths of the leaves |
| ObjectUtils.AssignUnique | src/utils/object.ts:6-7 | a key that only one leaf joins to holds that leaf's value |
| ObjectUtils.FlattenKeysLeaves | src/utils/object.ts:3-8 | the result has exactly one key per joined leaf path, and a path that only one leaf joins to maps to that leaf's value |
| ObjectUtils.LeavesUnderPath | src/utils/object.ts:5-7 | every leaf path extends the starting path; a non-object at the top is its own leaf |
| ObjectUtils.MemberLeavesUnderPath | src/utils/object.ts:7 | the leaves of an object's members extend the starting path |
| Databases.EscapeSQLWord | src/lib/Database.ts:69-71 | the result is made only of `[a-zA-Z0-9_$-]`, is no longer than the word, and is as long exactly when the word had nothing to remove |
| Databases.EscapeKeepsWords | src/lib/Database.ts:69-71 | a word of allowed characters passes unchanged |
| Databases.EscapeIdempotent | src/lib/Database.ts:69-71 | escaping twice is escaping once |
| Databases.EscapeAppend | src/lib/Database.ts:70 | escaping distributes over concatenation |
| Databases.EscapeCounts | src/lib/Database.ts:70 | each allowed character keeps its count, every other character disappears |
| Text.JoinSplit | src/extensions/Extension.ts:170-172 | joining the parts of a split string at the same separator gives the string back |
| Text.SplitJoin | src/users/User.ts:45-47 | splitting a join of separator-free parts gives the parts back |
| DeviceConnectors.SetFlag | src/devices/DeviceConnection.ts:32-39 | the flag becomes the truthiness of the request, and one event naming the new value is emitted exactly when the flag changes (also src/connectors/Connector.ts:57-64) |
| DeviceConnectors.FlagRunAlternates | src/devices/DeviceConnection.ts:32-39 | over any series of calls the events alternate, the first naming the opposite of the starting value, and the flag ends where the last event left it (also src/connectors/Connector.ts:57-64) |
| DeviceConnectors.NoRepeatedEvents | src/devices/DeviceConnection.ts:34 | an event never repeats the one before it (also src/connectors/Connector.ts:59) |
| DeviceConnectors.FlagEvents | src/devices/DeviceConnection.ts:38 | one event per change: a change to true emits the flag's on-name (`open`, `ready`), a change to false its off-name (`close`, `stop`) (also src/connectors/Connector.ts:63) |
| DeviceConnectors.FlagEventsAppend | src/devices/DeviceConnection.ts:38 | the names of successive changes are emitted in order |
| DeviceConnectors.OpenArgument | src/devices/DeviceConnection.ts:32-33 | the default `true` applies when the argument is left out or undefined; any other argument is kept, and its truthiness decides the flag |
| DeviceConnectors.DeviceConnection.constructor | src/devices/DeviceConnection.ts:19-26 | a new connection is closed and has emitted nothing |
| DeviceConnectors.DeviceConnection.SetOpen | src/devices/DeviceConnection.ts:32-39 | sets the open flag to the truthiness of the argument, true when it is left out or undefined (`OpenArgument`), and emits `open` or `close` only on a change |
| DeviceConnectors.ConnectionRun | src/devices/DeviceConnection.ts:19-39 | whatever arguments `setOpen` receives, a fresh connection emits `open`, `close`, `open`, … starting with `open`, and ends open exactly when it emitted an odd number of events |
| DeviceConnectors.Connector.constructor | src/connectors/Connector.ts:28 | a new connector is not ready, has no protocol and has emitted nothing |
| DeviceConnectors.Connector.SetReady | src/connectors/Connector.ts:57-64 | sets the ready flag to the truthiness of the argument and emits `ready` or `stop` only on a change |
| DeviceConnectors.Connector.Init | src/connectors/Connector.ts:42-54 | a string protocol type attaches the protocol module found for it and announces the connector to it; a failed lookup is logged; any other type changes nothing |
| DeviceConnectors.Next | src/devices/DeviceConnector.ts:78-110 | `create` sets the created flag, `destroy` clears both flags, `open` opens only a created connector, any other event changes nothing |
| DeviceConnectors.Forwarded | src/devices/DeviceConnector.ts:78-110 | `create`, `destroy` and `data` are forwarded, `open` only once created, an unrecognised event never |
| DeviceConnectors.Logged | src/devices/DeviceConnector.ts:91-106 | an early `open` logs an error, an unrecognised event a warning, and nothing else logs |
| DeviceConnectors.OpenOnlyWhenCreated | src/devices/DeviceConnector.ts:78-110 | a connector is only ever open while created |
| DeviceConnectors.NeverOpenWithoutCreate | src/devices/DeviceConnector.ts:91-95 | without a `create` event a new connector never opens, whatever else is emitted |
| DeviceConnectors.DeviceConnector.constructor | src/devices/DeviceConnector.ts:10-27 | a new connector is neither created nor open |
| DeviceConnectors.DeviceConnector.IsReady | src/devices/DeviceConnector.ts:44-53 | ready for writing, for reading, or both, exactly when open |
| DeviceConnectors.DeviceConnector.Emit | src/devices/DeviceConnector.ts:78-110 | always returns true; the flags, the forwarded events and the log advance as `Next`, `Forwarded` and `Logged` say |
| DeviceConnectors.DeviceConnector.HandleData | src/devices/DeviceConnector.ts:71-73 | forwards one `data` event with the data and changes nothing else |
| DeviceConnectors.CreateOpenClose | src/devices/DeviceConnector.ts:78-110 | an `open` before `create` is refused with an error, the one after it opens the connector, and an unrecognised `close` is only warned about |
| DeviceTraits.Device.constructor | src/devices/Device.ts:41-61 | a device starts from the default props, whose `metadata` is empty: no trait state stored and no event emitted |
| DeviceTraits.DeviceCommandParams.constructor | src/devices/DeviceTrait/DeviceCommandParams.ts:6-8 | null or undefined parameters give an empty parameter object |
| DeviceTraits.DeviceCommandParams.Get | src/devices/DeviceTrait/DeviceCommandParams.ts:15-17 | the value given for the parameter, undefined when it is missing |
| DeviceTraits.DeviceCommandParams.Has | src/devices/DeviceTrait/DeviceCommandParams.ts:10-13 | true exactly when the parameter is present and neither undefined nor null |
| DeviceTraits.DeviceCommandParams.GetBool | src/devices/DeviceTrait/DeviceCommandParams.ts:19-21 | true exactly when the parameter is present and truthy; a missing one reads as false |
| DeviceTraits.DeviceCommandParams.GetString | src/devices/DeviceTrait/DeviceCommandParams.ts:27-29 | a missing parameter reads as `"undefined"`, null as `"null"`, and a string as itself |
| DeviceTraits.DeviceCommandParams.Set | src/devices/DeviceTrait/DeviceCommandParams.ts:31-34 | stores the value under the parameter and returns it |
| DeviceTraits.SetThenGet | src/devices/DeviceTrait/DeviceCommandParams.ts:15-34 | after `set(p, v)`, `get(p)` is `v` and every other parameter reads as before |
| DeviceTraits.GetBoolOfAbsent | src/devices/DeviceTrait/DeviceCommandParams.ts:10-21 | a parameter `has` rejects reads as false through `getBool` |
| DeviceTraits.DeviceDisplay.constructor | src/devices/DeviceDisplay.ts:14-19 | a new display has no content and is not active |
| DeviceTraits.DeviceDisplay.IsActive | src/devices/DeviceDisplay.ts:24-26 | a display whose flag was never set, or set to null, is inactive; a boolean flag is reported as it is |
| DeviceTraits.DeviceDisplay.SetActive | src/devices/DeviceDisplay.ts:24-35 | stores the flag, so that `isActive` is its truthiness, and returns the display itself |
| DeviceTraits.DeviceDisplay.SetText | src/devices/DeviceDisplay.ts:37-40 | the text list becomes exactly the one text; the record is kept |
| DeviceTraits.DeviceDisplay.AddText | src/devices/DeviceDisplay.ts:42-45 | appends the text, starting a list when there is none |
| DeviceTraits.DeviceDisplay.SetRecord | src/devices/DeviceDisplay.ts:47-50 | sets the record and keeps the text list |
| DeviceTraits.DeviceDisplay.Serialize | src/devices/DeviceDisplay.ts:52-57 | the truthiness of the active flag, and the content as it is |
| DeviceTraits.TextsInOrder | src/devices/DeviceDisplay.ts:37-50 | `setText` then `addText` lists both texts in that order whatever was there; a record set in between leaves the list alone |
| DeviceTraits.DeviceState.constructor | src/devices/DeviceState.ts:10-11 | a new state has no active flag and no display slot |
| DeviceTraits.DeviceState.SetIsActive | src/devices/DeviceState.ts:20-23 | stores the truthiness of the flag and returns the state itself |
| DeviceTraits.DeviceState.AddButtonDisplay | src/devices/DeviceState.ts:25-28 | replaces the buttons slot and returns the state itself |
| DeviceTraits.DeviceState.AddTileDisplay | src/devices/DeviceState.ts:30-33 | replaces the tile slot and returns the state itself |
| DeviceTraits.DeviceState.AddRecordingDisplay | src/devices/DeviceState.ts:35-38 | replaces the recording slot and returns the state itself |
| DeviceTraits.DeviceState.ToJSON | src/devices/DeviceState.ts:40-45 | the active flag, undefined until set, and the display slots |
| DeviceTraits.ChainedState | src/devices/DeviceState.ts:20-45 | a chain of setters writes every slot it names, and the last write to a slot wins |
| DeviceTraits.NameOf | src/devices/DeviceTrait/DeviceTrait.ts:63-65 | the class name without its last five characters, lower-cased |
| DeviceTraits.TraitNames | src/devices/DeviceTrait/DeviceTrait.ts:51-65 | the three traits are named `switch`, `color` and `openclose`, so their stored states never share a path |
| DeviceTraits.Commands | src/devices/DeviceTrait/traits/SwitchTrait.ts:40-50 | every registered handler belongs to its own trait, and the open/close trait's `stop` is null (also src/devices/DeviceTrait/traits/ColorTrait.ts:69-87, src/devices/DeviceTrait/traits/OpenCloseTrait.ts:41-49) |
| DeviceTraits.NewTrait | src/devices/DeviceTrait/DeviceTrait.ts:13-16 | a trait keeps the options it is given, none when they are missing |
| DeviceTraits.GetOption | src/devices/DeviceTrait/DeviceTrait.ts:39-49 | the option as given, or the "is undefined" error exactly when it is undefined; the defaults are not consulted |
| DeviceTraits.GetState | src/devices/DeviceTrait/DeviceTrait.ts:51-53 | the trait's stored state, or `{}` when there is none |
| DeviceTraits.SetState | src/devices/DeviceTrait/DeviceTrait.ts:55-61 | replaces the trait's whole stored state, emits `state:update` only when asked, and `getState` then returns the new state |
| DeviceTraits.ToggleStatusHandler | src/devices/DeviceTrait/traits/SwitchTrait.ts:41-49 | without a status parameter the parameter is set to the negated current status; the switch state becomes exactly `{status}` with the parameter's truthiness |
| DeviceTraits.ToggleTwice | src/devices/DeviceTrait/traits/SwitchTrait.ts:41-49 | toggling twice without a parameter restores the truthiness of the status |
| DeviceTraits.SetStatus | src/devices/DeviceTrait/traits/ColorTrait.ts:90-95 | writes `{status}` into the switch state when the device has a switch trait, and otherwise changes nothing |
| DeviceTraits.SetColorHandler | src/devices/DeviceTrait/traits/ColorTrait.ts:70-77 | the colour state becomes the given colour with no program, and the switch is turned on when there is one |
| DeviceTraits.SetProgramHandler | src/devices/DeviceTrait/traits/ColorTrait.ts:79-86 | the colour state becomes the given program with no colour, and the switch is turned on when there is one |
| DeviceTraits.ColorCommandTurnsOn | src/devices/DeviceTrait/traits/ColorTrait.ts:70-95 | after `setColor` on a device with a switch, the program is null, the colour is the given one, and the switch reports on |
| DeviceTraits.OpenCloseHandler | src/devices/DeviceTrait/traits/OpenCloseTrait.ts:41-47 | the state becomes exactly `{openStatus}` |
| DeviceTraits.Perform | src/devices/DeviceTrait/DeviceTrait.ts:30-32 | running the handler registered for a command leaves exactly the state that handler sets (toggle, colour, program, open, close), emits nothing, and only `toggleStatus` writes to the parameters: the negated old status, when none was passed |
| DeviceTraits.GetDisplay | src/devices/DeviceTrait/DeviceTrait.ts:34-37 | null for a trait without a display provider; otherwise the display is active exactly when the state's flag is truthy and shows the matching label as its only text (also src/devices/DeviceTrait/traits/SwitchTrait.ts:31-38, src/devices/DeviceTrait/traits/OpenCloseTrait.ts:32-39) |
| DeviceTraits.LabelsDiffer | src/devices/DeviceTrait/traits/SwitchTrait.ts:36 | the labels for the two states differ (also src/devices/DeviceTrait/traits/OpenCloseTrait.ts:37) |
| DeviceTraits.ToggleThenDisplay | src/devices/DeviceTrait/traits/SwitchTrait.ts:31-49 | after a toggle the switch display is active exactly when the new status is true, and its label says so |

## Left out

- Real time is not modelled. `setInterval`, `setTimeout` and `Date.now()` become an explicit `now` argument, and a pending timer that `Fire` runs. The periodic restart of the check interval (`startInterval`) is left out.
- The cron library is not modelled. It is a `Cron` value that says which expressions parse and when each one next occurs.
- The uuid generator is not modelled. The generated id is an argument.
- The MySQL store is not modelled (`Database.query`, `connect`, `serializeFields`, `ControllerDatabase`). The task table is a second sequence of rows that `refetchTasks` copies wholesale. Only `escapeSQLWord` is modelled from `Database.ts`.
- Block bodies (`run`, `mount`, `unmount`, `handleTask` of each block type) are extension code. Their outcome, or the block type a registry returns, is a parameter.
- Promise concurrency is not modelled. This covers `Promise.all` in `ModelEvent.emit` and `deleteAllTasks`, the awaits in the scheduler, and `allParameterValues`. Everything runs sequentially, in the order the source starts it. The `cancel` handler a `ModelEvent` passes to its listeners is not modelled.
- Numbers are not floating point. `Js` numbers are integers or NaN, and `parseFloat` reads integer literals only. So the number coercion of parameter values, the value cells of a record line, and `DeviceCommandParams.getNumber` are exact only for integer values. `getNumber` itself is not modelled.
- `Math.log2` in `encodeInt` without a length is replaced by the digit count it evidently computes: the fewest base-64 digits that hold the number, and at least one. `decodeToBuffer` without a `bytes` argument calls `Buffer.from` with a number, which throws in Node, so the model gives an error there.
- `Records.ImmutableRecord.Compress`: the date cell encodes `Math.round(ms / 1000)`, as the code does, not truncated seconds.
- File I/O of the record manager is not modelled: `readFile`, the file index, `readLatest`, and writing a flushed batch to disk. `Flush` returns the drained records instead. `RecordSet.downsample` (LTTB on floating point) is not modelled either.
- Extension loading is not modelled: `Extension.activate`'s file lookup and `require`, `getMainFilepath`, `ExtensionModule._register` (which finds its extension through a stack trace) and the extension registry. `ActivateModule` models one step of `activate()`'s loop over the modules.
- `ModelWithProps` keypath `get`/`set`/`defaultsDeep` is not modelled. Props and metadata are flat maps, and a trait's state is stored under its trait name.
- `DeviceTraits.GetOption`: `_.get` with a dotted keypath into nested options is modelled for a single key only.
- `DeviceTrait.toJSON` is not modelled, and neither is `ColorTrait.getAngle`. Nor is what only `toJSON` reports: the `menu` flag each trait passes to `setConfig`, and the default options passed to `setDefaultOptions`, which `toJSON` merges under the given options with `_.defaultsDeep`.
- `ColorTrait.setStatus` calls `device.getTraitOrFail`, which `Device.ts` does not define. The model reads "the device has a switch trait" as the `hasSwitch` field of the device.
- `FlowBlockContext` uses `flowCtx.findBlock`, `flowCtx.script` and `flowCtx.taskManager`, which `FlowContext.ts` does not declare. The model uses the context's `getBlock` and `def`, and holds the flow's task manager in the flow context. The statement context's `block.root().findBlock` is the same lookup in the flow's block map.
- Parent walks (`rootBlock`, `getHandler`, `getVariable`) are modelled only where every block's parent comes after it in the script (`ParentsAfter`), so the walk ends. A compiled script with unique ids satisfies this (`FlowRuntime.CompiledParentsAfter`). A cyclic graph, on which the source would loop forever, is not modelled.
- `FlowLayouts.FindSlot`: ignoring case is modelled for ASCII letters only. `toUpperCase` also folds non-ASCII letters (and can change a string's length, as `ß` becomes `SS`); ids that differ only in non-ASCII case are treated as different.
- JavaScript objects used as dictionaries (`tasks`, `taskState`, the block map, props, parameters) are Dafny maps and sequences without a prototype. A key such as `constructor` or `toString`, which a plain object answers from `Object.prototype`, is absent in the model.
- Objects are enumerated in insertion order. `Object.values`, `forOwn` and `for…in` visit integer-like keys first, in ascending order, and only then the other keys in insertion order; keys such as `"12"` do not take that earlier place in the model.
- `RecordManagers.RecordManager.Add`: the options `recording.enabled` and `recording.interval` are read once, when the manager is constructed. The source reads them from the device on every `add`, so a later change of the options is not seen by the model.
- `RecordValues.AliasOf`: `String.fromCharCode` can produce a lone surrogate code unit, which a Dafny character cannot hold; such an alias (ids 55231 to 57278, modulo 65536) becomes U+FFFD, so two of those ids share an alias in the model.
- `Records.ImmutableRecord.GetValue`: the fallback is always passed. When a caller leaves it out, the source's default is `0`.
- `Extensions.ExtensionModule.CallProvider`: the error message names the module's type name, where the source uses `this.constructor.name`, the class name of the module subclass; the two agree only when the subclass is named after its type.
- `FlowRuntime.FlowBlockContext.constructor` and the slot contexts it builds are modelled as intended, each from its own definition and layout. As written, the contexts receive `(slotId, blockCtx)` where their constructor takes `(blockCtx, def, layout)`, and `init()` is never called; the `...AsWritten` members and Findings record what that does.
- `FlowRuntime.FlowBlockParameterContext.constructor`, `FlowRuntime.FlowBlockParameterContext.Value`: modelled as intended; as written no value settles (`ParameterValueAsWritten`).
- `FlowRuntime.FlowBlockStatementContext.constructor`, `FlowRuntime.FlowBlockStatementContext.Blocks`: modelled as intended; as written `blocks()` throws (`BlocksAsWritten`).
- `FlowRuntime.FlowBlockStatementContext.ExecuteBlock`: modelled as intended; as written it always rejects (`ExecuteBlockAsWritten`).
- `FlowRuntime.FlowBlockStatementContext.Execute`: modelled as intended; as written it rejects unless stopped (`ExecuteAsWritten`).
- `FlowRuntime.FlowBlockStatementContext.StartExecution`: modelled as intended; as written it always rejects (`StartExecutionAsWritten`).
- `Flows.Flow.constructor`: modelled as intended. As written it throws (`NewFlowAsWritten`), and even without that its defaults would not apply: they sit in `_getConfig`, while `ModelWithProps` reads `__modelConfig`, whose default in `Model` is `{}`. Props other than the workspace blocks are not modelled.
- `Tasks.TaskManager.AddDelayedTask`, `Tasks.TaskManager.AddTimedTask`, `Tasks.TaskManager.AddRepeatingTask`, `FlowRuntime.FlowBlockContext.AddTimedTask`, `FlowRuntime.FlowBlockContext.AddDelayedTask`, `FlowRuntime.FlowBlockContext.AddRepeatingTask`: modelled as intended, over the corrected `Tasks.Taskrunner.AddTask`. As written each of them reaches `Taskrunner.addTask`, which always returns `false` and stores nothing (`Tasks.Taskrunner.AddTaskAsWritten`), so none of them schedules a task.
- `Flows.Flow.HandleBlockCustomTask`: task data that is not an object, or is undefined, is routed to "not this flow's task". In the source, reading `ctx` of such data throws outside any `try`. The same holds for the flow filter in the deletion loop of `reload`.
- `Js.Value` has no arrays: an array is folded into an opaque object, whose text is always `"[object Object]"`. So `formatValue`'s loose `value == 'true'` and `toString` on an array constant such as `['false']` are not modelled.
- `ObjectUtils.EnsureFind`: when the predicate accepts an `undefined` element, `_.find` returns `undefined` and `ensureFind` throws its error; the model returns the element.
- `RecordValues.GetField`: the `===` comparisons are modelled for search members that are defined. A search whose `name`, `id` or `alias` is undefined, compared against a field whose member is also undefined, is not modelled.
- `Timers.Timer.constructor`: the default `start = true` is not modelled; callers pass `start` explicitly.
- `DeviceTraits.DeviceCommandParams.constructor`: the parameter object is copied into the new instance, where the source keeps a reference to the caller's object, so later changes through either are not shared.
- `DeviceConnectors.Connector.Init`: a throw from `protocol.emit` and a `null` protocol prop are not modelled.
- Other parts of the system are not part of this model: logging, notifications, the scripting sandbox, the dashboard and UI, the other device traits, device drivers, and password hashing (`User.updatePassword`, `verifyPasswordTimeSafe`).

## Findings

| source | as written | input that shows it | evidently intended | confidence | as-written member | corrected member |
|---|---|---|---|---|---|---|
| src/lib/Taskrunner.ts:63-75 | the task row spreads `manager.options.meta`, but a `TaskManager` has no `options`, so building the row throws inside the `try` and `addTask` returns `false` | any call, e.g. `addTask(m, 'k', someDate, null)` | the row carries `meta: {manager: {id}}` and the uuid is returned | high, not executed | Tasks.Taskrunner.AddTaskAsWritten | Tasks.Taskrunner.AddTask |
| src/lib/TaskManager.ts:50-56 | calls `Taskrunner.listTasks`, which does not exist, and compares `meta.managerId`, which tasks do not carry | any call of `deleteAllTasks()` | delete every stored task whose `meta.manager.id` is the manager's id | high, not executed | Tasks.TaskManager.DeleteAllTasksAsWritten | Tasks.TaskManager.DeleteAllTasks |
| src/flows/Flow.ts:36-42 | `reload` calls `Taskrunner.indexTasks`, which does not exist, so it throws before it deletes any task or mounts any block | any call of `reload()` | delete the flow's `FLOW_TASK`s, then mount every block of the new graph | high, not executed | Flows.Flow.ReloadAsWritten | Flows.Flow.Reload |
| src/lib/ValueAsserter.ts:43-45 | the loop replaces the literal text `'%i'` with `args[i]`, so `%1` and `%2` are never substituted | `assert(1).isMin(5)` throws "Value must be greater than %1." | step `i` replaces `%i` with the i-th argument, giving "Value must be greater than 5." | high, not executed | ValueAsserters.MessagesAsWritten | ValueAsserters.BetweenIntended |
| src/lib/Model.ts:62-84 | `on` stores `{callback, options}` records, and `createEvent` hands those records to `ModelEvent`, whose `emit` skips every entry that is not a function, so no listener ever runs | `m.on('e', f); m.emit('e', d)` never calls `f` | each listener's callback runs with the event data | medium, not executed | Models.EmitRunsNothingAsWritten | Models.Model.Emit |
| src/flows/FlowBlockContext/FlowBlockContext.ts:196-206 | `getVariable` stops walking up only at a function value, so any other value a block holds is overwritten by what its ancestors hold, and the top-most ancestor's entry is returned | a block with `x = 1` whose parent has no `x` reads `undefined` | the nearest block that defines the variable supplies it | medium, not executed | FlowRuntime.OwnVariableShadowed | FlowRuntime.NearestOwnValue |
| src/flows/FlowBlockContext/FlowBlockContext.ts:66-73 | the slot contexts are built with `(p.id, this)` and `(s.id, this)`, but their constructor takes `(blockCtx, def, layout)` and `init()` is never called, so `def` is the block context: every parameter `value()` throws in its executor and never settles, and every statement `blocks()` throws, so `execute`, `executeBlock` and `startExecution` reject before running a child | any block with a parameter: `await ctx.allParameterValues()` never resolves | each slot context holds its own definition and layout, looked up by the slot id | high, not executed | FlowRuntime.InputsAsWrittenFail | FlowRuntime.FlowBlockParameterContext.Value |
| src/flows/Flow.ts:50-52 | `init()`, which the `ModelWithProps` constructor calls, runs `Taskrunner.on('task', ...)`, but the scheduler class has no `on`, so every `new Flow(id, props)` throws and `handleBlockCustomTask` is never subscribed | any `new Flow(1, {})` | every task the scheduler executes is handed to `handleBlockCustomTask` | high, not executed | Flows.NewFlowAsWritten | Flows.Flow.OnFiredTask |
