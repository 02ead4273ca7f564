/**
 * The task scheduler's state as a value, and each of its steps as a
 * function of that state: adding, deleting, the periodic check, preparing
 * a task, and a prepared timeout firing. The `Tasks` module runs these
 * steps imperatively and is proved to agree with them.
 */
module TaskSpec {
  import opened Wrappers
  import opened Js

  const CHECK_TASKS_INTERVAL: int := 10 * 1000
  /** Declared by the scheduler and never used. */
  const REPEATING_TASK_MIN_INTERVAL: int := CHECK_TASKS_INTERVAL
  const EXPIRED_TASK_DELETE_AFTER: int := 60 * 1000
  const TASK_PREPARE_MIN_TIME_DIFF: int := 20 * 1000
  /** `CHECK_TASKS_INTERVAL * 1.25`, which is a whole number of milliseconds. */
  const REPEAT_LOOKAHEAD: int := CHECK_TASKS_INTERVAL * 5 / 4

  /** The block a flow task belongs to: `{type, id}`. */
  datatype BlockRef = BlockRef(blockType: string, id: string)

  /**
   * A task's `data`: the payload a flow block schedules
   * (`{taskType, originalKeyword, originalData, ctx: {block, flowId}}`),
   * or any other value.
   */
  datatype TaskData =
    | Plain(value: Value)
    | FlowPayload(taskType: string, originalKeyword: string, originalData: Value, block: BlockRef, flowId: int)

  /** A stored task; `managerId` is `meta.manager.id`. A `Date` is truthy even when invalid. */
  datatype Task = Task(date: Option<Time>, interval: Option<string>, keyword: string,
                       data: TaskData, uuid: string, managerId: string)

  /**
   * The cron library: whether an expression parses, and its next
   * occurrence after a given time.
   */
  datatype Cron = Cron(parses: string -> bool, next: (string, int) -> int)

  /** A pending `setTimeout` holding the task it was prepared for; `repeating` selects its body. */
  datatype Timer = Timer(task: Task, delay: Number, repeating: bool)

  /** A handler registered with a task manager; `callback` identifies the function. */
  datatype Handler = Handler(keyword: string, callback: nat)

  /**
   * The scheduler: `tasks` (the in-memory object, in property order),
   * `taskState` (`isBeingPrepared` per uuid), the database table and the
   * pending timeouts.
   */
  datatype Runner = Runner(tasks: seq<Task>, taskState: map<string, bool>, db: seq<Task>, timers: seq<Timer>)

  /** `if (interval)`: a non-empty string. */
  predicate IsSet(interval: Option<string>)
  {
    interval.Some? && interval.value != ""
  }

  predicate Distinct(tasks: seq<Task>)
  {
    forall i, j :: 0 <= i < j < |tasks| ==> tasks[i].uuid != tasks[j].uuid
  }

  /** `tasks[uuid]`. */
  function Lookup(tasks: seq<Task>, uuid: string): (r: Option<Task>)
    ensures r.Some? ==> r.value in tasks && r.value.uuid == uuid
    ensures r.None? <==> forall t :: t in tasks ==> t.uuid != uuid
  {
    if tasks == [] then None
    else if tasks[0].uuid == uuid then Some(tasks[0])
    else Lookup(tasks[1..], uuid)
  }

  /** Removing every entry (property or row) with this uuid. */
  function Without(tasks: seq<Task>, uuid: string): (r: seq<Task>)
    ensures forall t :: t in r <==> t in tasks && t.uuid != uuid
  {
    if tasks == [] then []
    else if tasks[0].uuid == uuid then Without(tasks[1..], uuid)
    else [tasks[0]] + Without(tasks[1..], uuid)
  }

  /** `tasks[row.uuid] = row`: overwritten in place, or added last. */
  function Upsert(tasks: seq<Task>, row: Task): seq<Task>
  {
    if tasks == [] then [row]
    else if tasks[0].uuid == row.uuid then [row] + tasks[1..]
    else [tasks[0]] + Upsert(tasks[1..], row)
  }

  /** The object `refetchTasks` builds from the table's rows. */
  function FromRows(rows: seq<Task>): seq<Task>
  {
    if rows == [] then [] else Upsert(FromRows(rows[..|rows| - 1]), rows[|rows| - 1])
  }

  function StateOf(r: Runner, uuid: string): Option<bool>
  {
    if uuid in r.taskState then Some(r.taskState[uuid]) else None
  }

  /** The pending timeouts holding the task with this uuid. */
  function TimersFor(timers: seq<Timer>, uuid: string): seq<Timer>
  {
    if timers == [] then []
    else TimersFor(timers[..|timers| - 1], uuid) +
         (if timers[|timers| - 1].task.uuid == uuid then [timers[|timers| - 1]] else [])
  }

  /** Everything the scheduler holds about one uuid. */
  function View(r: Runner, uuid: string): (Option<Task>, Option<bool>, Option<Task>, seq<Timer>)
  {
    (Lookup(r.tasks, uuid), StateOf(r, uuid), Lookup(r.db, uuid), TimersFor(r.timers, uuid))
  }

  /** `deleteTask(uuid)`: only a task present in memory is deleted, from memory, state and table. */
  function Delete(r: Runner, uuid: string): Runner
  {
    if Lookup(r.tasks, uuid).None? then r
    else r.(tasks := Without(r.tasks, uuid), db := Without(r.db, uuid), taskState := r.taskState - {uuid})
  }

  /** `refetchTasks()`: memory is rebuilt from the table. */
  function Refetch(r: Runner): Runner
  {
    r.(tasks := FromRows(r.db))
  }

  /** What `checkTasks` does with one task. */
  datatype Action = Skip | Expire | Prepare

  function Decide(task: Task, state: Option<bool>, cron: Cron, now: int): Action
  {
    if state == Some(true) then Skip
    else if task.date.Some? then
      var d := task.date.value;
      if d.Finite? && d.n + EXPIRED_TASK_DELETE_AFTER < now then Expire
      else if d.Finite? && d.n - now <= TASK_PREPARE_MIN_TIME_DIFF then Prepare
      else Skip
    else if IsSet(task.interval) then
      if cron.parses(task.interval.value) && cron.next(task.interval.value, now) - now <= REPEAT_LOOKAHEAD
      then Prepare
      else Skip
    else Skip
  }

  /** `date.getTime() - Date.now()`. */
  function Until(date: Time, now: int): Number
  {
    if date.Finite? then Finite(date.n - now) else NaN
  }

  /**
   * `prepareTaskForExecution(uuid)`: a stored task not already being
   * prepared is marked as such, and a timeout is set for its date or its
   * next cron occurrence. An interval that does not parse leaves the mark
   * set and no timeout.
   */
  function PrepareTask(r: Runner, cron: Cron, uuid: string, now: int): Runner
  {
    var found := Lookup(r.tasks, uuid);
    if found.None? || StateOf(r, uuid) == Some(true) then r
    else
      var task := found.value;
      var marked := r.(taskState := r.taskState[uuid := true]);
      if task.date.Some? then
        marked.(timers := marked.timers + [Timer(task, Until(task.date.value, now), false)])
      else if IsSet(task.interval) && cron.parses(task.interval.value) then
        marked.(timers := marked.timers + [Timer(task, Finite(cron.next(task.interval.value, now) - now), true)])
      else marked
  }

  /** The body of the `forOwn` callback in `checkTasks`. */
  function CheckStep(r: Runner, cron: Cron, task: Task, now: int): Runner
  {
    match Decide(task, StateOf(r, task.uuid), cron, now)
    case Skip => r
    case Expire => Delete(r, task.uuid)
    case Prepare => PrepareTask(r, cron, task.uuid, now)
  }

  /** `checkTasks()` over the tasks present when it starts, in property order. */
  function CheckAll(r: Runner, cron: Cron, tasks: seq<Task>, now: int): Runner
    decreases |tasks|
  {
    if tasks == [] then r else CheckAll(CheckStep(r, cron, tasks[0], now), cron, tasks[1..], now)
  }

  /** The row `addTask` inserts. */
  function NewRow(date: Option<Time>, interval: Option<string>, keyword: string, data: TaskData,
                  uuid: string, managerId: string): Task
  {
    Task(date, interval, keyword, data, uuid, managerId)
  }

  /**
   * `addTask`: an interval that is set and does not parse is refused;
   * otherwise the row is inserted, memory refetched and the tasks checked.
   */
  function AddTask(r: Runner, cron: Cron, row: Task, now: int): (Option<string>, Runner)
  {
    if IsSet(row.interval) && !cron.parses(row.interval.value) then (None, r)
    else
      var fetched := Refetch(r.(db := r.db + [row]));
      (Some(row.uuid), CheckAll(fetched, cron, fetched.tasks, now))
  }

  /**
   * A pending timeout firing: it leaves the pending list; if its task is
   * still stored, a dated task is then deleted and a repeating one is
   * marked as no longer being prepared.
   */
  function Fire(r: Runner, k: nat): Runner
    requires k < |r.timers|
  {
    var timer := r.timers[k];
    var rest := r.(timers := r.timers[..k] + r.timers[k + 1..]);
    if Lookup(rest.tasks, timer.task.uuid).None? then rest
    else if !timer.repeating then Delete(rest, timer.task.uuid)
    else rest.(taskState := rest.taskState[timer.task.uuid := false])
  }

  /** The handlers `executeTask` invokes: those registered for the task's keyword, in order. */
  function Matching(handlers: seq<Handler>, keyword: string): seq<Handler>
  {
    if handlers == [] then []
    else Matching(handlers[..|handlers| - 1], keyword) +
         (if handlers[|handlers| - 1].keyword == keyword then [handlers[|handlers| - 1]] else [])
  }

  /**
   * The handlers `executeTask` actually runs when `throws` says which
   * callbacks throw: each in turn, up to and including the first one that
   * throws, since the surrounding `try` abandons the rest of the loop.
   */
  function RunUntilThrow(hs: seq<Handler>, throws: Handler -> bool): (r: seq<Handler>)
    ensures r <= hs
    ensures forall k :: 0 <= k < |r| - 1 ==> !throws(r[k])
    ensures |r| < |hs| ==> r != [] && throws(r[|r| - 1])
  {
    if hs == [] then []
    else if throws(hs[0]) then [hs[0]]
    else [hs[0]] + RunUntilThrow(hs[1..], throws)
  }

  /** `deleteAllTasks()`, as intended: every task owned by this manager is deleted. */
  function DeleteOwned(r: Runner, tasks: seq<Task>, managerId: string): Runner
    decreases |tasks|
  {
    if tasks == [] then r
    else DeleteOwned(if tasks[0].managerId == managerId then Delete(r, tasks[0].uuid) else r,
                     tasks[1..], managerId)
  }

  // ---------------------------------------------------------------------
  // Lookups after deleting and inserting
  // ---------------------------------------------------------------------

  lemma {:induction false} WithoutLookup(tasks: seq<Task>, uuid: string, other: string)
    requires other != uuid
    ensures Lookup(Without(tasks, uuid), other) == Lookup(tasks, other)
    decreases |tasks|
  {
    if tasks != [] {
      WithoutLookup(tasks[1..], uuid, other);
    }
  }

  lemma UpsertFacts(tasks: seq<Task>, row: Task)
    ensures Lookup(Upsert(tasks, row), row.uuid) == Some(row)
    ensures forall other :: other != row.uuid ==> Lookup(Upsert(tasks, row), other) == Lookup(tasks, other)
    ensures forall t :: t in Upsert(tasks, row) ==> t == row || t in tasks
    ensures Distinct(tasks) ==> Distinct(Upsert(tasks, row))
  {
    UpsertLookup(tasks, row);
    UpsertMembers(tasks, row);
    if Distinct(tasks) {
      UpsertDistinct(tasks, row);
    }
  }

  lemma {:induction false} UpsertLookup(tasks: seq<Task>, row: Task)
    ensures Lookup(Upsert(tasks, row), row.uuid) == Some(row)
    ensures forall other :: other != row.uuid ==> Lookup(Upsert(tasks, row), other) == Lookup(tasks, other)
    decreases |tasks|
  {
    if tasks != [] && tasks[0].uuid != row.uuid {
      UpsertLookup(tasks[1..], row);
      assert Upsert(tasks, row)[1..] == Upsert(tasks[1..], row);
    } else if tasks != [] {
      assert Upsert(tasks, row)[1..] == tasks[1..];
    }
  }

  lemma {:induction false} UpsertMembers(tasks: seq<Task>, row: Task)
    ensures forall t :: t in Upsert(tasks, row) ==> t == row || t in tasks
    decreases |tasks|
  {
    if tasks != [] && tasks[0].uuid != row.uuid {
      UpsertMembers(tasks[1..], row);
      assert tasks == [tasks[0]] + tasks[1..];
    } else if tasks != [] {
      assert tasks == [tasks[0]] + tasks[1..];
    }
  }

  lemma {:induction false} UpsertDistinct(tasks: seq<Task>, row: Task)
    requires Distinct(tasks)
    ensures Distinct(Upsert(tasks, row))
    decreases |tasks|
  {
    if tasks != [] && tasks[0].uuid != row.uuid {
      var rest := Upsert(tasks[1..], row);
      assert Distinct(tasks[1..]) by {
        forall i, j | 0 <= i < j < |tasks[1..]| ensures tasks[1..][i].uuid != tasks[1..][j].uuid {
          assert tasks[1..][i] == tasks[i + 1] && tasks[1..][j] == tasks[j + 1];
        }
      }
      UpsertDistinct(tasks[1..], row);
      UpsertMembers(tasks[1..], row);
      forall j | 0 <= j < |rest| ensures rest[j].uuid != tasks[0].uuid {
        assert rest[j] in rest;
        if rest[j] != row {
          var m :| 0 <= m < |tasks[1..]| && tasks[1..][m] == rest[j];
          assert tasks[m + 1] == rest[j];
        }
      }
      assert Upsert(tasks, row) == [tasks[0]] + rest;
    } else if tasks != [] {
      var out := Upsert(tasks, row);
      forall i, j | 0 <= i < j < |out| ensures out[i].uuid != out[j].uuid {
        assert tasks[i].uuid == out[i].uuid && tasks[j].uuid == out[j].uuid;
      }
    }
  }


  /**
   * The object `refetchTasks` builds has one property per uuid that occurs
   * in the table, holding that uuid's last row.
   */
  lemma FromRowsFacts(rows: seq<Task>)
    ensures Distinct(FromRows(rows))
    ensures forall u :: Lookup(FromRows(rows), u).Some? <==> exists i :: 0 <= i < |rows| && rows[i].uuid == u
    ensures forall j :: 0 <= j < |rows| && (forall k :: j < k < |rows| ==> rows[k].uuid != rows[j].uuid) ==>
              Lookup(FromRows(rows), rows[j].uuid) == Some(rows[j])
  {
    FromRowsDistinct(rows);
    forall u ensures Lookup(FromRows(rows), u).Some? <==> exists i :: 0 <= i < |rows| && rows[i].uuid == u {
      FromRowsKey(rows, u);
    }
    forall j | 0 <= j < |rows| && (forall k :: j < k < |rows| ==> rows[k].uuid != rows[j].uuid)
      ensures Lookup(FromRows(rows), rows[j].uuid) == Some(rows[j])
    {
      FromRowsLast(rows, j);
    }
  }

  lemma {:induction false} FromRowsDistinct(rows: seq<Task>)
    ensures Distinct(FromRows(rows))
    decreases |rows|
  {
    if rows != [] {
      FromRowsDistinct(rows[..|rows| - 1]);
      UpsertDistinct(FromRows(rows[..|rows| - 1]), rows[|rows| - 1]);
    }
  }

  lemma {:induction false} FromRowsKey(rows: seq<Task>, u: string)
    ensures Lookup(FromRows(rows), u).Some? <==> exists i :: 0 <= i < |rows| && rows[i].uuid == u
    decreases |rows|
  {
    if rows != [] {
      var n := |rows|;
      var init := rows[..n - 1];
      if u == rows[n - 1].uuid {
        assert Lookup(FromRows(rows), u) == Some(rows[n - 1]) by {
          UpsertLookup(FromRows(init), rows[n - 1]);
        }
      } else {
        assert Lookup(FromRows(rows), u) == Lookup(FromRows(init), u) by {
          UpsertLookup(FromRows(init), rows[n - 1]);
        }
        FromRowsKey(init, u);
        UuidInInit(rows, init, u);
      }
    }
  }

  lemma UuidInInit(rows: seq<Task>, init: seq<Task>, u: string)
    requires rows != [] && init == rows[..|rows| - 1] && rows[|rows| - 1].uuid != u
    ensures (exists i :: 0 <= i < |rows| && rows[i].uuid == u) <==> (exists i :: 0 <= i < |init| && init[i].uuid == u)
  {
    if exists i :: 0 <= i < |rows| && rows[i].uuid == u {
      var i :| 0 <= i < |rows| && rows[i].uuid == u;
      assert init[i] == rows[i];
    }
    if exists i :: 0 <= i < |init| && init[i].uuid == u {
      var i :| 0 <= i < |init| && init[i].uuid == u;
      assert rows[i] == init[i];
    }
  }

  lemma {:induction false} FromRowsLast(rows: seq<Task>, j: nat)
    requires j < |rows| && forall k :: j < k < |rows| ==> rows[k].uuid != rows[j].uuid
    ensures Lookup(FromRows(rows), rows[j].uuid) == Some(rows[j])
    decreases |rows|
  {
    var n := |rows|;
    var init := rows[..n - 1];
    if j == n - 1 {
      UpsertLookup(FromRows(init), rows[n - 1]);
    } else {
      assert rows[n - 1].uuid != rows[j].uuid;
      assert Lookup(FromRows(rows), rows[j].uuid) == Lookup(FromRows(init), rows[j].uuid) by {
        UpsertLookup(FromRows(init), rows[n - 1]);
      }
      assert rows[j] == init[j];
      assert forall k :: j < k < n - 1 ==> init[k] == rows[k];
      FromRowsLast(init, j);
    }
  }

  /** The uuids after the first are distinct, and none of them is the first's. */
  lemma DistinctHead(tasks: seq<Task>)
    requires Distinct(tasks) && tasks != []
    ensures Distinct(tasks[1..])
    ensures forall t :: t in tasks[1..] ==> t.uuid != tasks[0].uuid
  {
    forall i, k | 0 <= i < k < |tasks[1..]| ensures tasks[1..][i].uuid != tasks[1..][k].uuid {
      assert tasks[1..][i] == tasks[i + 1] && tasks[1..][k] == tasks[k + 1];
    }
    forall t | t in tasks[1..] ensures t.uuid != tasks[0].uuid {
      var m :| 0 <= m < |tasks[1..]| && tasks[1..][m] == t;
      assert tasks[m + 1] == t;
    }
  }

  lemma DistinctCons(x: Task, rest: seq<Task>)
    requires Distinct(rest) && forall t :: t in rest ==> t.uuid != x.uuid
    ensures Distinct([x] + rest)
  {
    var out := [x] + rest;
    forall i, k | 0 <= i < k < |out| ensures out[i].uuid != out[k].uuid {
      assert out[k] == rest[k - 1];
      if i > 0 {
        assert out[i] == rest[i - 1];
      }
    }
  }

  /** Removing a uuid's entries keeps the remaining uuids distinct. */
  lemma {:induction false} WithoutDistinct(tasks: seq<Task>, uuid: string)
    requires Distinct(tasks)
    ensures Distinct(Without(tasks, uuid))
    decreases |tasks|
  {
    if tasks != [] {
      DistinctHead(tasks);
      WithoutDistinct(tasks[1..], uuid);
      if tasks[0].uuid != uuid {
        DistinctCons(tasks[0], Without(tasks[1..], uuid));
      }
    }
  }

  /** Over distinct uuids, every listed task is the one found under its uuid. */
  lemma LookupEach(tasks: seq<Task>)
    ensures Distinct(tasks) ==> forall k :: 0 <= k < |tasks| ==> Lookup(tasks, tasks[k].uuid) == Some(tasks[k])
  {
    if Distinct(tasks) {
      forall k | 0 <= k < |tasks|
        ensures Lookup(tasks, tasks[k].uuid) == Some(tasks[k])
      {
        LookupDistinct(tasks, tasks[k]);
      }
    }
  }

  lemma LookupDistinct(tasks: seq<Task>, t: Task)
    requires Distinct(tasks) && t in tasks
    ensures Lookup(tasks, t.uuid) == Some(t)
  {
    var found := Lookup(tasks, t.uuid);
    var i :| 0 <= i < |tasks| && tasks[i] == t;
    var j :| 0 <= j < |tasks| && tasks[j] == found.value;
  }

  /**
   * `deleteTask(uuid)`: an unknown uuid changes nothing; a known one is
   * gone from memory, state and table, and nothing about any other uuid
   * changes.
   */
  lemma DeleteFacts(r: Runner, uuid: string)
    ensures Lookup(r.tasks, uuid).None? ==> Delete(r, uuid) == r
    ensures Lookup(r.tasks, uuid).Some? ==>
              Lookup(Delete(r, uuid).tasks, uuid).None? && Lookup(Delete(r, uuid).db, uuid).None? &&
              StateOf(Delete(r, uuid), uuid).None? && Delete(r, uuid).timers == r.timers
    ensures forall other :: other != uuid ==> View(Delete(r, uuid), other) == View(r, other)
  {
    if Lookup(r.tasks, uuid).Some? {
      var out := r.(tasks := Without(r.tasks, uuid), db := Without(r.db, uuid), taskState := r.taskState - {uuid});
      assert Delete(r, uuid) == out;
      forall other | other != uuid ensures View(out, other) == View(r, other) {
        DeleteOther(r, uuid, other);
      }
    }
  }

  lemma DeleteOther(r: Runner, uuid: string, other: string)
    requires other != uuid
    ensures View(r.(tasks := Without(r.tasks, uuid), db := Without(r.db, uuid), taskState := r.taskState - {uuid}), other)
         == View(r, other)
  {
    WithoutLookup(r.tasks, uuid, other);
    WithoutLookup(r.db, uuid, other);
  }

  // ---------------------------------------------------------------------
  // The periodic check
  // ---------------------------------------------------------------------

  /** The timeout `prepareTaskForExecution` sets for a task, if any. */
  function NewTimers(task: Task, cron: Cron, now: int): seq<Timer>
  {
    if task.date.Some? then [Timer(task, Until(task.date.value, now), false)]
    else if IsSet(task.interval) && cron.parses(task.interval.value) then
      [Timer(task, Finite(cron.next(task.interval.value, now) - now), true)]
    else []
  }

  /** What one check step does to the view of its own task's uuid. */
  function StepView(view: (Option<Task>, Option<bool>, Option<Task>, seq<Timer>), cron: Cron, task: Task, now: int)
    : (Option<Task>, Option<bool>, Option<Task>, seq<Timer>)
  {
    match Decide(task, view.1, cron, now)
    case Skip => view
    case Expire => if view.0.None? then view else (None, None, None, view.3)
    case Prepare => if view.0.None? then view else (view.0, Some(true), view.2, view.3 + NewTimers(view.0.value, cron, now))
  }

  lemma TimersForSnoc(timers: seq<Timer>, x: Timer, uuid: string)
    ensures TimersFor(timers + [x], uuid) == TimersFor(timers, uuid) + (if x.task.uuid == uuid then [x] else [])
  {
    assert (timers + [x])[..|timers|] == timers;
  }

  /** A check step touches only its own task's uuid, and affects it as `StepView` says. */
  lemma StepFacts(r: Runner, cron: Cron, task: Task, now: int)
    ensures View(CheckStep(r, cron, task, now), task.uuid) == StepView(View(r, task.uuid), cron, task, now)
    ensures forall other :: other != task.uuid ==> View(CheckStep(r, cron, task, now), other) == View(r, other)
  {
    var u := task.uuid;
    match Decide(task, StateOf(r, u), cron, now)
    case Skip =>
    case Expire =>
      DeleteFacts(r, u);
    case Prepare =>
      if Lookup(r.tasks, u).Some? {
        PrepareFacts(r, cron, u, now);
      }
  }

  /** Preparing a stored task that is not being prepared marks it and adds its timeout, and touches no other uuid. */
  lemma PrepareFacts(r: Runner, cron: Cron, u: string, now: int)
    requires Lookup(r.tasks, u).Some? && StateOf(r, u) != Some(true)
    ensures View(PrepareTask(r, cron, u, now), u) ==
            (Lookup(r.tasks, u), Some(true), Lookup(r.db, u), TimersFor(r.timers, u) + NewTimers(Lookup(r.tasks, u).value, cron, now))
    ensures forall other :: other != u ==> View(PrepareTask(r, cron, u, now), other) == View(r, other)
  {
    var out := PrepareTask(r, cron, u, now);
    var added := NewTimers(Lookup(r.tasks, u).value, cron, now);
    assert out == r.(taskState := r.taskState[u := true], timers := r.timers + added);
    MarkAndAdd(r, u, added, u);
    forall other | other != u ensures View(out, other) == View(r, other) {
      MarkAndAdd(r, u, added, other);
    }
  }

  /** Marking `u` and appending at most one timeout of `u` changes only the view of `u`. */
  lemma MarkAndAdd(r: Runner, u: string, added: seq<Timer>, other: string)
    requires |added| <= 1 && (added != [] ==> added[0].task.uuid == u)
    ensures View(r.(taskState := r.taskState[u := true], timers := r.timers + added), other) ==
            if other == u then (Lookup(r.tasks, u), Some(true), Lookup(r.db, u), TimersFor(r.timers, u) + added)
            else View(r, other)
  {
    var out := r.(taskState := r.taskState[u := true], timers := r.timers + added);
    assert StateOf(out, other) == if other == u then Some(true) else StateOf(r, other);
    if added != [] {
      assert r.timers + added == r.timers + [added[0]];
      TimersForSnoc(r.timers, added[0], other);
      assert TimersFor(out.timers, other) == if other == u then TimersFor(r.timers, u) + added else TimersFor(r.timers, other);
    } else {
      assert r.timers + added == r.timers;
      assert TimersFor(r.timers, u) + added == TimersFor(r.timers, u);
    }
  }


  lemma {:induction false} CheckAllFrame(r: Runner, cron: Cron, tasks: seq<Task>, now: int, uuid: string)
    requires forall t :: t in tasks ==> t.uuid != uuid
    ensures View(CheckAll(r, cron, tasks, now), uuid) == View(r, uuid)
    decreases |tasks|
  {
    if tasks != [] {
      StepFacts(r, cron, tasks[0], now);
      CheckAllFrame(CheckStep(r, cron, tasks[0], now), cron, tasks[1..], now, uuid);
    }
  }

  lemma {:induction false} CheckAllOwn(r: Runner, cron: Cron, tasks: seq<Task>, now: int, t: Task)
    requires Distinct(tasks) && t in tasks
    ensures View(CheckAll(r, cron, tasks, now), t.uuid) == StepView(View(r, t.uuid), cron, t, now)
    decreases |tasks|
  {
    var next := CheckStep(r, cron, tasks[0], now);
    StepFacts(r, cron, tasks[0], now);
    if tasks[0] == t {
      forall x | x in tasks[1..] ensures x.uuid != t.uuid {
        var j :| 0 <= j < |tasks[1..]| && tasks[1..][j] == x;
        assert tasks[j + 1] == x;
      }
      CheckAllFrame(next, cron, tasks[1..], now, t.uuid);
    } else {
      assert t in tasks[1..];
      var j :| 0 <= j < |tasks[1..]| && tasks[1..][j] == t;
      assert tasks[j + 1] == t;
      assert tasks[0].uuid != t.uuid;
      assert Distinct(tasks[1..]) by {
        forall i, k | 0 <= i < k < |tasks[1..]| ensures tasks[1..][i].uuid != tasks[1..][k].uuid {
          assert tasks[1..][i] == tasks[i + 1] && tasks[1..][k] == tasks[k + 1];
        }
      }
      CheckAllOwn(next, cron, tasks[1..], now, t);
    }
  }

  /**
   * `checkTasks()`: a task whose state says it is being prepared is left
   * alone; an expired dated task is deleted without a timeout; a task due
   * soon is marked and gets exactly one timeout; any other task, and every
   * uuid not stored, is left as it was.
   */
  lemma CheckTasksOutcome(r: Runner, cron: Cron, now: int, t: Task)
    requires Distinct(r.tasks) && t in r.tasks
    ensures var after := CheckAll(r, cron, r.tasks, now);
            StateOf(r, t.uuid) == Some(true) ==> View(after, t.uuid) == View(r, t.uuid)
    ensures var after := CheckAll(r, cron, r.tasks, now);
            Decide(t, StateOf(r, t.uuid), cron, now) == Skip ==> View(after, t.uuid) == View(r, t.uuid)
    ensures var after := CheckAll(r, cron, r.tasks, now);
            Decide(t, StateOf(r, t.uuid), cron, now) == Expire ==>
              Lookup(after.tasks, t.uuid).None? && StateOf(after, t.uuid).None? &&
              Lookup(after.db, t.uuid).None? && TimersFor(after.timers, t.uuid) == TimersFor(r.timers, t.uuid)
    ensures var after := CheckAll(r, cron, r.tasks, now);
            Decide(t, StateOf(r, t.uuid), cron, now) == Prepare ==>
              Lookup(after.tasks, t.uuid) == Some(t) && StateOf(after, t.uuid) == Some(true) &&
              |NewTimers(t, cron, now)| == 1 &&
              TimersFor(after.timers, t.uuid) == TimersFor(r.timers, t.uuid) + NewTimers(t, cron, now)
  {
    LookupDistinct(r.tasks, t);
    CheckAllOwn(r, cron, r.tasks, now, t);
  }

  /**
   * Every step of the scheduler keeps the stored tasks keyed by distinct
   * uuids: a deletion only removes entries, preparing a task and marking it
   * leave the tasks alone, and a refetch rebuilds them one property per uuid.
   */
  lemma StepKeepsDistinct(r: Runner, cron: Cron, task: Task, now: int)
    requires Distinct(r.tasks)
    ensures Distinct(Delete(r, task.uuid).tasks)
    ensures PrepareTask(r, cron, task.uuid, now).tasks == r.tasks
    ensures Distinct(CheckStep(r, cron, task, now).tasks)
  {
    if Lookup(r.tasks, task.uuid).Some? {
      WithoutDistinct(r.tasks, task.uuid);
    }
  }

  lemma {:induction false} CheckAllKeepsDistinct(r: Runner, cron: Cron, tasks: seq<Task>, now: int)
    requires Distinct(r.tasks)
    ensures Distinct(CheckAll(r, cron, tasks, now).tasks)
    decreases |tasks|
  {
    if tasks != [] {
      StepKeepsDistinct(r, cron, tasks[0], now);
      CheckAllKeepsDistinct(CheckStep(r, cron, tasks[0], now), cron, tasks[1..], now);
    }
  }

  lemma CheckTasksUnstored(r: Runner, cron: Cron, now: int, uuid: string)
    requires Lookup(r.tasks, uuid).None?
    ensures View(CheckAll(r, cron, r.tasks, now), uuid) == View(r, uuid)
  {
    CheckAllFrame(r, cron, r.tasks, now, uuid);
  }

  // ---------------------------------------------------------------------
  // Adding, firing, dispatching, deleting a manager's tasks
  // ---------------------------------------------------------------------

  /**
   * `addTask`: an interval that is set and does not parse gives `false`
   * and changes nothing; otherwise the uuid is returned and the new row is
   * stored with exactly the given fields, unless the check that follows
   * finds it already expired.
   */
  lemma AddTaskOutcome(r: Runner, cron: Cron, row: Task, now: int)
    ensures IsSet(row.interval) && !cron.parses(row.interval.value) ==> AddTask(r, cron, row, now) == (None, r)
    ensures !(IsSet(row.interval) && !cron.parses(row.interval.value)) ==>
              AddTask(r, cron, row, now).0 == Some(row.uuid) &&
              (Decide(row, StateOf(r, row.uuid), cron, now) != Expire <==>
                 Lookup(AddTask(r, cron, row, now).1.tasks, row.uuid) == Some(row))
  {
    if !(IsSet(row.interval) && !cron.parses(row.interval.value)) {
      var rows := r.db + [row];
      assert rows[..|rows| - 1] == r.db;
      FromRowsFacts(rows);
      var fetched := Refetch(r.(db := rows));
      assert Lookup(fetched.tasks, row.uuid) == Some(row);
      assert StateOf(fetched, row.uuid) == StateOf(r, row.uuid);
      CheckTasksOutcome(fetched, cron, now, row);
    }
  }

  /**
   * A timeout firing: it leaves the pending list; a task no longer stored
   * is not touched; a stored dated task is deleted; a stored repeating task
   * stays, marked as no longer being prepared; no other uuid changes.
   */
  lemma FireOutcome(r: Runner, k: nat)
    requires k < |r.timers|
    ensures Fire(r, k).timers == r.timers[..k] + r.timers[k + 1..]
    ensures var u := r.timers[k].task.uuid;
            Lookup(r.tasks, u).None? ==>
              Fire(r, k).tasks == r.tasks && Fire(r, k).taskState == r.taskState && Fire(r, k).db == r.db
    ensures var u := r.timers[k].task.uuid;
            Lookup(r.tasks, u).Some? && !r.timers[k].repeating ==>
              Lookup(Fire(r, k).tasks, u).None? && StateOf(Fire(r, k), u).None? && Lookup(Fire(r, k).db, u).None?
    ensures var u := r.timers[k].task.uuid;
            Lookup(r.tasks, u).Some? && r.timers[k].repeating ==>
              Fire(r, k).tasks == r.tasks && Fire(r, k).db == r.db && StateOf(Fire(r, k), u) == Some(false)
    ensures forall other :: other != r.timers[k].task.uuid ==>
              Lookup(Fire(r, k).tasks, other) == Lookup(r.tasks, other) && StateOf(Fire(r, k), other) == StateOf(r, other) &&
              Lookup(Fire(r, k).db, other) == Lookup(r.db, other)
  {
    var u := r.timers[k].task.uuid;
    var rest := r.(timers := r.timers[..k] + r.timers[k + 1..]);
    assert Lookup(rest.tasks, u) == Lookup(r.tasks, u);
    if Lookup(r.tasks, u).Some? && !r.timers[k].repeating {
      DeleteFacts(rest, u);
      assert Fire(r, k) == Delete(rest, u);
      forall other | other != u
        ensures Lookup(Fire(r, k).tasks, other) == Lookup(r.tasks, other) && StateOf(Fire(r, k), other) == StateOf(r, other) &&
                Lookup(Fire(r, k).db, other) == Lookup(r.db, other)
      {
        assert View(Delete(rest, u), other) == View(rest, other);
      }
    } else if Lookup(r.tasks, u).Some? {
      assert Fire(r, k) == rest.(taskState := rest.taskState[u := false]);
    } else {
      assert Fire(r, k) == rest;
    }
  }

  /** Adding a task and a timeout firing keep the stored uuids distinct. */
  lemma AddAndFireKeepDistinct(r: Runner, cron: Cron, row: Task, now: int)
    requires Distinct(r.tasks)
    ensures Distinct(AddTask(r, cron, row, now).1.tasks)
    ensures forall k :: 0 <= k < |r.timers| ==> Distinct(Fire(r, k).tasks)
  {
    if !(IsSet(row.interval) && !cron.parses(row.interval.value)) {
      var fetched := Refetch(r.(db := r.db + [row]));
      FromRowsFacts(fetched.db);
      CheckAllKeepsDistinct(fetched, cron, fetched.tasks, now);
    }
    forall k | 0 <= k < |r.timers| ensures Distinct(Fire(r, k).tasks) {
      var rest := r.(timers := r.timers[..k] + r.timers[k + 1..]);
      StepKeepsDistinct(rest, cron, r.timers[k].task, now);
    }
  }

  /** The handlers a task reaches keep their registration order, and are exactly those with its keyword. */
  lemma {:induction false} MatchingFacts(handlers: seq<Handler>, more: seq<Handler>, keyword: string)
    ensures forall h :: h in Matching(handlers, keyword) <==> h in handlers && h.keyword == keyword
    ensures Matching(handlers + more, keyword) == Matching(handlers, keyword) + Matching(more, keyword)
    decreases |more|
  {
    MatchingMembers(handlers, keyword);
    if more == [] {
      assert handlers + more == handlers;
    } else {
      var init := more[..|more| - 1];
      var last := more[|more| - 1];
      var tail: seq<Handler> := if last.keyword == keyword then [last] else [];
      MatchingFacts(handlers, init, keyword);
      assert (handlers + more)[..|handlers + more| - 1] == handlers + init;
      assert (handlers + more)[|handlers + more| - 1] == last;
      assert Matching(handlers + more, keyword) == Matching(handlers + init, keyword) + tail;
      assert Matching(more, keyword) == Matching(init, keyword) + tail;
      HandlerAppendAssoc(Matching(handlers, keyword), Matching(init, keyword), tail);
    }
  }

  /** When no handler throws, every matching handler runs. */
  lemma {:induction false} RunUntilThrowAll(hs: seq<Handler>, throws: Handler -> bool)
    requires forall k :: 0 <= k < |hs| ==> !throws(hs[k])
    ensures RunUntilThrow(hs, throws) == hs
    decreases |hs|
  {
    if hs != [] {
      RunUntilThrowAll(hs[1..], throws);
      assert [hs[0]] + hs[1..] == hs;
    }
  }

  /** A handler that throws ends the run: nothing registered after it is reached. */
  lemma {:induction false} RunUntilThrowStops(ran: seq<Handler>, rest: seq<Handler>, throws: Handler -> bool)
    requires ran != [] && throws(ran[|ran| - 1])
    requires forall k :: 0 <= k < |ran| - 1 ==> !throws(ran[k])
    ensures RunUntilThrow(ran + rest, throws) == ran
    decreases |ran|
  {
    if |ran| == 1 {
      assert (ran + rest)[0] == ran[0];
    } else {
      assert (ran + rest)[0] == ran[0];
      assert (ran + rest)[1..] == ran[1..] + rest;
      RunUntilThrowStops(ran[1..], rest, throws);
      assert [ran[0]] + ran[1..] == ran;
    }
  }

  lemma HandlerAppendAssoc(a: seq<Handler>, b: seq<Handler>, c: seq<Handler>)
    ensures (a + b) + c == a + (b + c)
  {
  }

  lemma {:induction false} MatchingMembers(handlers: seq<Handler>, keyword: string)
    ensures forall h :: h in Matching(handlers, keyword) <==> h in handlers && h.keyword == keyword
    decreases |handlers|
  {
    if handlers != [] {
      var init := handlers[..|handlers| - 1];
      MatchingMembers(init, keyword);
      assert handlers == init + [handlers[|handlers| - 1]];
    }
  }

  lemma {:induction false} DeleteOwnedFrame(r: Runner, tasks: seq<Task>, managerId: string, uuid: string)
    requires forall t :: t in tasks && t.managerId == managerId ==> t.uuid != uuid
    ensures View(DeleteOwned(r, tasks, managerId), uuid) == View(r, uuid)
    decreases |tasks|
  {
    if tasks != [] {
      var next := if tasks[0].managerId == managerId then Delete(r, tasks[0].uuid) else r;
      DeleteFacts(r, tasks[0].uuid);
      DeleteOwnedFrame(next, tasks[1..], managerId, uuid);
    }
  }

  lemma {:induction false} DeleteOwnedGone(r: Runner, tasks: seq<Task>, managerId: string, uuid: string)
    requires Lookup(r.tasks, uuid).None? || exists t :: t in tasks && t.managerId == managerId && t.uuid == uuid
    ensures Lookup(DeleteOwned(r, tasks, managerId).tasks, uuid).None?
    decreases |tasks|
  {
    if tasks != [] {
      var next := if tasks[0].managerId == managerId then Delete(r, tasks[0].uuid) else r;
      DeleteFacts(r, tasks[0].uuid);
      if Lookup(r.tasks, uuid).Some? && !(tasks[0].managerId == managerId && tasks[0].uuid == uuid) {
        var t :| t in tasks && t.managerId == managerId && t.uuid == uuid;
        assert t in tasks[1..];
      }
      DeleteOwnedGone(next, tasks[1..], managerId, uuid);
    }
  }

  /**
   * `deleteAllTasks()`, as intended: afterwards no stored task is owned by
   * the manager, and everything about a uuid no owned task has is unchanged.
   */
  lemma DeleteOwnedOutcome(r: Runner, managerId: string)
    ensures forall t :: t in r.tasks && t.managerId == managerId ==>
              Lookup(DeleteOwned(r, r.tasks, managerId).tasks, t.uuid).None?
    ensures forall uuid :: (forall t :: t in r.tasks && t.managerId == managerId ==> t.uuid != uuid) ==>
              View(DeleteOwned(r, r.tasks, managerId), uuid) == View(r, uuid)
  {
    forall t | t in r.tasks && t.managerId == managerId
      ensures Lookup(DeleteOwned(r, r.tasks, managerId).tasks, t.uuid).None?
    {
      DeleteOwnedGone(r, r.tasks, managerId, t.uuid);
    }
    forall uuid | forall t :: t in r.tasks && t.managerId == managerId ==> t.uuid != uuid
      ensures View(DeleteOwned(r, r.tasks, managerId), uuid) == View(r, uuid)
    {
      DeleteOwnedFrame(r, r.tasks, managerId, uuid);
    }
  }
}
