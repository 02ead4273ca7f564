/**
 * The task scheduler and the task managers that own its tasks. The
 * scheduler's fields are updated in place as in the source; every method
 * is proved to perform the corresponding step of `TaskSpec`.
 *
 * The clock (`Date.now()`) and the uuid generator are parameters, the
 * cron library is the `Cron` value the scheduler is built with, and each
 * `setTimeout` is a pending `Timer` that `Fire` runs.
 */
module Tasks {
  import opened Wrappers
  import opened Js
  import opened TaskSpec

  class Taskrunner {
    const cron: Cron
    var tasks: seq<Task>
    var taskState: map<string, bool>
    var db: seq<Task>
    var timers: seq<Timer>
    var managers: map<string, TaskManager>
    var tasksLatestFetchTime: int

    /** The stored tasks are keyed by uuid, as the properties of an object are. */
    ghost predicate Valid()
      reads this
    {
      Distinct(tasks)
    }

    constructor (cron: Cron, rows: seq<Task>)
      ensures Valid()
      ensures tasks == [] && taskState == map[] && db == rows && timers == [] && managers == map[]
    {
      this.cron := cron;
      tasks := [];
      taskState := map[];
      db := rows;
      timers := [];
      managers := map[];
      tasksLatestFetchTime := 0;
    }

    function State(): Runner
      reads this
    {
      Runner(tasks, taskState, db, timers)
    }

    /**
     * `index()`: the stored tasks, in property order: every task `findTask`
     * finds is listed, and under the class invariant each listed task is the
     * one found under its uuid.
     */
    function Index(): (r: seq<Task>)
      reads this
      ensures |r| == |tasks|
      ensures forall u :: FindTask(u).Some? ==> FindTask(u).value in r
      ensures Valid() ==> forall k :: 0 <= k < |r| ==> FindTask(r[k].uuid) == Some(r[k])
    {
      LookupEach(tasks);
      tasks
    }

    /** `findTask(uuid)`. */
    function FindTask(uuid: string): (r: Option<Task>)
      reads this
      ensures r.Some? ==> r.value in tasks && r.value.uuid == uuid
      ensures r.None? <==> forall t :: t in tasks ==> t.uuid != uuid
    {
      Lookup(tasks, uuid)
    }

    /** `getTaskState(uuid)?.isBeingPrepared`. */
    function GetTaskState(uuid: string): (r: Option<bool>)
      reads this
      ensures r.None? <==> uuid !in taskState
      ensures r.Some? ==> r.value == taskState[uuid]
    {
      StateOf(State(), uuid)
    }

    /** `updateTaskState(uuid, {isBeingPrepared})`: the state entry is created or updated. */
    method UpdateTaskState(uuid: string, isBeingPrepared: bool)
      modifies this
      ensures taskState == old(taskState)[uuid := isBeingPrepared]
      ensures tasks == old(tasks) && db == old(db) && timers == old(timers)
      ensures managers == old(managers) && tasksLatestFetchTime == old(tasksLatestFetchTime)
    {
      taskState := taskState[uuid := isBeingPrepared];
    }

    /** `deleteTask(uuid)`. */
    method DeleteTask(uuid: string)
      requires Valid()
      modifies this
      ensures Valid()
      ensures State() == Delete(old(State()), uuid)
      ensures managers == old(managers) && tasksLatestFetchTime == old(tasksLatestFetchTime)
    {
      if FindTask(uuid).None? {
        return;
      }
      db := Without(db, uuid);
      WithoutDistinct(tasks, uuid);
      tasks := Without(tasks, uuid);
      taskState := taskState - {uuid};
    }

    /** `refetchTasks()`: memory is rebuilt row by row from the table. */
    method RefetchTasks(now: int)
      modifies this
      ensures Valid()
      ensures State() == Refetch(old(State()))
      ensures managers == old(managers) && tasksLatestFetchTime == now
    {
      tasks := [];
      var i := 0;
      while i < |db|
        invariant 0 <= i <= |db| && tasks == FromRows(db[..i])
        invariant taskState == old(taskState) && db == old(db) && timers == old(timers) && managers == old(managers)
      {
        assert db[..i + 1][..i] == db[..i];
        tasks := Upsert(tasks, db[i]);
        i := i + 1;
      }
      assert db[..i] == db;
      FromRowsFacts(db);
      tasksLatestFetchTime := now;
    }

    /** `prepareTaskForExecution(uuid)`; the timeout is left pending for `Fire`. */
    method PrepareTaskForExecution(uuid: string, now: int)
      requires Valid()
      modifies this
      ensures Valid()
      ensures State() == PrepareTask(old(State()), cron, uuid, now)
      ensures managers == old(managers) && tasksLatestFetchTime == old(tasksLatestFetchTime)
    {
      var found := FindTask(uuid);
      var state := GetTaskState(uuid);
      if found.None? || state == Some(true) {
        return;
      }
      var task := found.value;
      UpdateTaskState(task.uuid, true);
      assert State() == old(State()).(taskState := old(taskState)[uuid := true]);
      if task.date.Some? {
        timers := timers + [Timer(task, Until(task.date.value, now), false)];
      } else if IsSet(task.interval) {
        if cron.parses(task.interval.value) {
          var next := cron.next(task.interval.value, now);
          timers := timers + [Timer(task, Finite(next - now), true)];
        }
        // otherwise the parse error is logged and the task stays marked
      }
    }

    /** `checkTasks()` at time `now`, over the tasks stored when it starts. */
    method CheckTasks(now: int)
      requires Valid()
      modifies this
      ensures Valid()
      ensures State() == CheckAll(old(State()), cron, old(tasks), now)
      ensures managers == old(managers) && tasksLatestFetchTime == old(tasksLatestFetchTime)
    {
      var snapshot := tasks;
      var i := 0;
      while i < |snapshot|
        invariant 0 <= i <= |snapshot|
        invariant CheckAll(State(), cron, snapshot[i..], now) == CheckAll(old(State()), cron, snapshot, now)
        invariant Valid()
        invariant managers == old(managers) && tasksLatestFetchTime == old(tasksLatestFetchTime)
      {
        var task := snapshot[i];
        ghost var before := State();
        var state := GetTaskState(task.uuid);
        if state == Some(true) {
          // being prepared: skipped
        } else if task.date.Some? {
          var d := task.date.value;
          if d.Finite? && d.n + EXPIRED_TASK_DELETE_AFTER < now {
            DeleteTask(task.uuid);
          } else if d.Finite? && d.n - now <= TASK_PREPARE_MIN_TIME_DIFF {
            PrepareTaskForExecution(task.uuid, now);
          }
        } else if IsSet(task.interval) {
          if cron.parses(task.interval.value) {
            var next := cron.next(task.interval.value, now);
            if next - now <= REPEAT_LOOKAHEAD {
              PrepareTaskForExecution(task.uuid, now);
            }
          }
          // otherwise the parse error is logged
        }
        assert State() == CheckStep(before, cron, task, now);
        assert snapshot[i..][1..] == snapshot[i + 1..];
        i := i + 1;
      }
    }

    /**
     * `executeTask(task)`: the handlers of the task's manager registered
     * for its keyword, in registration order, up to and including the first
     * whose callback throws (`throws` says which do; the error is logged and
     * the remaining handlers are skipped); none when the manager is unknown.
     */
    method ExecuteTask(task: Task, throws: Handler -> bool) returns (invoked: seq<Handler>)
      ensures task.managerId !in managers ==> invoked == []
      ensures task.managerId in managers ==>
                invoked == RunUntilThrow(Matching(managers[task.managerId].handlers, task.keyword), throws)
    {
      invoked := [];
      if task.managerId !in managers {
        return;
      }
      var handlers := managers[task.managerId].handlers;
      var i := 0;
      while i < |handlers|
        invariant 0 <= i <= |handlers| && invoked == Matching(handlers[..i], task.keyword)
        invariant forall k :: 0 <= k < |invoked| ==> !throws(invoked[k])
      {
        assert handlers[..i + 1][..i] == handlers[..i];
        if handlers[i].keyword == task.keyword {
          invoked := invoked + [handlers[i]];
          if throws(handlers[i]) {
            MatchingFacts(handlers[..i + 1], handlers[i + 1..], task.keyword);
            assert handlers[..i + 1] + handlers[i + 1..] == handlers;
            RunUntilThrowStops(invoked, Matching(handlers[i + 1..], task.keyword), throws);
            return;
          }
        }
        i := i + 1;
      }
      assert handlers[..i] == handlers;
      RunUntilThrowAll(invoked, throws);
    }

    /**
     * The `k`-th pending timeout elapsing: its body runs the task if it is
     * still stored, then deletes a dated task or clears a repeating task's
     * mark. The handlers it invokes are returned.
     */
    method Fire(k: nat, throws: Handler -> bool) returns (invoked: seq<Handler>)
      requires Valid() && k < |timers|
      modifies this
      ensures Valid()
      ensures State() == TaskSpec.Fire(old(State()), k)
      ensures var task := old(timers)[k].task;
              invoked == (if Lookup(old(tasks), task.uuid).None? || task.managerId !in managers then []
                          else RunUntilThrow(Matching(managers[task.managerId].handlers, task.keyword), throws))
      ensures managers == old(managers) && tasksLatestFetchTime == old(tasksLatestFetchTime)
    {
      var timer := timers[k];
      timers := timers[..k] + timers[k + 1..];
      invoked := [];
      if FindTask(timer.task.uuid).None? {
        return;
      }
      invoked := ExecuteTask(timer.task, throws);
      if !timer.repeating {
        DeleteTask(timer.task.uuid);
      } else {
        UpdateTaskState(timer.task.uuid, false);
      }
    }

    /**
     * `addTask(manager, keyword, date, interval, data)` with the meta
     * object it evidently means to build, `{manager: {id}}`; `uuid` is the
     * generated id.
     */
    method AddTask(manager: TaskManager, keyword: string, date: Option<Time>, interval: Option<string>,
                   data: TaskData, uuid: string, now: int) returns (r: Option<string>)
      requires Valid()
      modifies this
      ensures Valid()
      ensures (r, State()) == TaskSpec.AddTask(old(State()), cron, NewRow(date, interval, keyword, data, uuid, manager.id), now)
      ensures managers == old(managers)
    {
      if IsSet(interval) && !cron.parses(interval.value) {
        return None;
      }
      var row := NewRow(date, interval, keyword, data, uuid, manager.id);
      db := db + [row];
      RefetchTasks(now);
      CheckTasks(now);
      r := Some(uuid);
    }

    /**
     * `addTask` as written: the row spreads `manager.options.meta`, and a
     * task manager has no `options`, so building the row throws; the error
     * is caught and logged, and `false` is returned with nothing stored.
     */
    method AddTaskAsWritten(manager: TaskManager, keyword: string, date: Option<Time>, interval: Option<string>,
                            data: TaskData, uuid: string, now: int) returns (r: Option<string>)
      ensures r.None?
    {
      r := None;
    }
  }

  class TaskManager {
    const id: string
    const runner: Taskrunner
    var handlers: seq<Handler>

    /** `new TaskManager(id)` for an id not yet registered: the manager registers itself. */
    constructor (id: string, runner: Taskrunner)
      requires id !in runner.managers
      modifies runner
      ensures this.id == id && this.runner == runner && handlers == []
      ensures runner.managers == old(runner.managers)[id := this]
      ensures runner.State() == old(runner.State())
    {
      this.id := id;
      this.runner := runner;
      handlers := [];
      new;
      runner.managers := runner.managers[id := this];
    }

    /** `new TaskManager(id)`: throws when a manager with this id already exists. */
    static method Create(id: string, runner: Taskrunner) returns (r: Result<TaskManager>)
      modifies runner
      ensures r.Err? <==> id in old(runner.managers)
      ensures r.Err? ==> runner.managers == old(runner.managers)
      ensures r.Ok? ==> fresh(r.value) && r.value.id == id && r.value.handlers == [] &&
                        runner.managers == old(runner.managers)[id := r.value]
      ensures runner.State() == old(runner.State())
    {
      if id in runner.managers {
        return Err("TaskManager already exists");
      }
      var manager := new TaskManager(id, runner);
      r := Ok(manager);
    }

    /** `addHandler(keyword, callback)`: appended, so registration order is kept and keywords may repeat. */
    method AddHandler(keyword: string, callback: nat)
      modifies this
      ensures handlers == old(handlers) + [Handler(keyword, callback)]
    {
      handlers := handlers + [Handler(keyword, callback)];
    }

    /** `addDelayedTask(keyword, msDelay, data)`: a dated task at `now + msDelay`. */
    method AddDelayedTask(keyword: string, msDelay: int, data: TaskData, uuid: string, now: int) returns (r: Option<string>)
      requires runner.Valid()
      modifies runner
      ensures runner.Valid()
      ensures (r, runner.State()) ==
              TaskSpec.AddTask(old(runner.State()), runner.cron, NewRow(Some(TimeClip(now + msDelay)), None, keyword, data, uuid, id), now)
    {
      r := runner.AddTask(this, keyword, Some(TimeClip(now + msDelay)), None, data, uuid, now);
    }

    /** `addTimedTask(keyword, date, data)`. */
    method AddTimedTask(keyword: string, date: Time, data: TaskData, uuid: string, now: int) returns (r: Option<string>)
      requires runner.Valid()
      modifies runner
      ensures runner.Valid()
      ensures (r, runner.State()) ==
              TaskSpec.AddTask(old(runner.State()), runner.cron, NewRow(Some(date), None, keyword, data, uuid, id), now)
    {
      r := runner.AddTask(this, keyword, Some(date), None, data, uuid, now);
    }

    /** `addRepeatingTask(keyword, interval, data)`. */
    method AddRepeatingTask(keyword: string, interval: string, data: TaskData, uuid: string, now: int) returns (r: Option<string>)
      requires runner.Valid()
      modifies runner
      ensures runner.Valid()
      ensures (r, runner.State()) ==
              TaskSpec.AddTask(old(runner.State()), runner.cron, NewRow(None, Some(interval), keyword, data, uuid, id), now)
    {
      r := runner.AddTask(this, keyword, None, Some(interval), data, uuid, now);
    }

    /** `deleteTask(uuid)`. */
    method DeleteTask(uuid: string)
      requires runner.Valid()
      modifies runner
      ensures runner.Valid()
      ensures runner.State() == Delete(old(runner.State()), uuid)
    {
      runner.DeleteTask(uuid);
    }

    /**
     * `deleteAllTasks()` as written: it calls `Taskrunner.listTasks`, which
     * does not exist, so it rejects before deleting anything.
     */
    method DeleteAllTasksAsWritten() returns (r: Result<()>)
      ensures r.Err?
    {
      r := Err("Taskrunner.listTasks is not a function");
    }

    /** `deleteAllTasks()` as intended: every stored task whose `meta.manager.id` is this id is deleted. */
    method DeleteAllTasks() returns (r: Result<()>)
      requires runner.Valid()
      modifies runner
      ensures runner.Valid()
      ensures r.Ok?
      ensures runner.State() == DeleteOwned(old(runner.State()), old(runner.tasks), id)
    {
      var snapshot := runner.Index();
      var i := 0;
      while i < |snapshot|
        invariant 0 <= i <= |snapshot|
        invariant DeleteOwned(runner.State(), snapshot[i..], id) == DeleteOwned(old(runner.State()), snapshot, id)
        invariant runner.Valid()
      {
        if snapshot[i].managerId == id {
          runner.DeleteTask(snapshot[i].uuid);
        }
        assert snapshot[i..][1..] == snapshot[i + 1..];
        i := i + 1;
      }
      r := Ok(());
    }
  }
}
