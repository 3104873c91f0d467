/** The stateful part of the to-do list front end: the `TodoApp` object of
    frontend/src/main.js, the bridge object through which it reaches the
    task store, and the browser's local storage, which keeps the theme.

    Every bridge call is asynchronous in the source and is awaited before the
    next step; here each runs to completion in turn. The bridge records every
    call it receives, so that contracts can say which calls an operation
    makes and in which order. Which calls fail is given by the set
    `failing`. */
module Frontend {
  import opened Common
  import opened TaskView

  /** The store operations reachable through the bridge. */
  datatype Op = GetTasksOp | CreateTaskOp | UpdateTaskStatusOp | DeleteTaskOp

  /** A call the front end made through the bridge. */
  datatype Call =
    | GetTasksCall
    | CreateTaskCall(task: Task)
    | UpdateTaskStatusCall(id: string, status: Status)
    | DeleteTaskCall(id: string)

  /** The list after setting the status of the tasks with id `id`. */
  function WithStatus(s: seq<Task>, id: string, status: Status): (r: seq<Task>)
    ensures |r| == |s|
    ensures forall i :: 0 <= i < |s| ==> r[i] == if s[i].id == id then s[i].(status := status) else s[i]
  {
    seq(|s|, i requires 0 <= i < |s| => if s[i].id == id then s[i].(status := status) else s[i])
  }

  /** The list without the tasks whose id is `id`, in the same order. */
  function WithoutId(s: seq<Task>, id: string): (r: seq<Task>)
    ensures Subseq(r, s)
    ensures forall i :: 0 <= i < |r| ==> r[i].id != id
    ensures forall t :: t in s && t.id != id ==> t in r
    ensures forall t :: multiset(r)[t] == if t.id != id then multiset(s)[t] else 0
  {
    var r := Select(s, (t: Task) => t.id != id);
    assert forall t :: t in s && t.id != id ==> multiset(r)[t] > 0;
    r
  }

  /** The bridge to the task store (`window.go.main.App`). The store's own
      code is not part of this model: it is taken to keep a list of tasks
      and to apply each successful call to it. */
  class Bridge {
    var stored: seq<Task>
    var failing: set<Op>
    var failMessage: string
    var calls: seq<Call>

    constructor (stored: seq<Task>, failing: set<Op>, failMessage: string)
      ensures this.stored == stored && this.failing == failing
      ensures this.failMessage == failMessage && calls == []
    {
      this.stored := stored;
      this.failing := failing;
      this.failMessage := failMessage;
      calls := [];
    }

    method GetTasks() returns (r: Result<seq<Task>, string>)
      modifies this`calls
      ensures calls == old(calls) + [GetTasksCall]
      ensures r == if GetTasksOp in failing then Failure(failMessage) else Success(stored)
    {
      calls := calls + [GetTasksCall];
      if GetTasksOp in failing {
        r := Failure(failMessage);
      } else {
        r := Success(stored);
      }
    }

    method CreateTask(task: Task) returns (r: Outcome<string>)
      modifies this`stored, this`calls
      ensures calls == old(calls) + [CreateTaskCall(task)]
      ensures r == if CreateTaskOp in failing then Fail(failMessage) else Pass
      ensures stored == if CreateTaskOp in failing then old(stored) else old(stored) + [task]
    {
      calls := calls + [CreateTaskCall(task)];
      if CreateTaskOp in failing {
        r := Fail(failMessage);
      } else {
        stored := stored + [task];
        r := Pass;
      }
    }

    method UpdateTaskStatus(id: string, status: Status) returns (r: Outcome<string>)
      modifies this`stored, this`calls
      ensures calls == old(calls) + [UpdateTaskStatusCall(id, status)]
      ensures r == if UpdateTaskStatusOp in failing then Fail(failMessage) else Pass
      ensures stored == if UpdateTaskStatusOp in failing then old(stored)
                        else WithStatus(old(stored), id, status)
    {
      calls := calls + [UpdateTaskStatusCall(id, status)];
      if UpdateTaskStatusOp in failing {
        r := Fail(failMessage);
      } else {
        stored := WithStatus(stored, id, status);
        r := Pass;
      }
    }

    method DeleteTask(id: string) returns (r: Outcome<string>)
      modifies this`stored, this`calls
      ensures calls == old(calls) + [DeleteTaskCall(id)]
      ensures r == if DeleteTaskOp in failing then Fail(failMessage) else Pass
      ensures stored == if DeleteTaskOp in failing then old(stored) else WithoutId(old(stored), id)
    {
      calls := calls + [DeleteTaskCall(id)];
      if DeleteTaskOp in failing {
        r := Fail(failMessage);
      } else {
        stored := WithoutId(stored, id);
        r := Pass;
      }
    }
  }

  /** The browser's durable key-value store. */
  class LocalStorage {
    var items: map<string, string>

    constructor (items: map<string, string>)
      ensures this.items == items
    {
      this.items := items;
    }

    method GetItem(key: string) returns (v: Option<string>)
      ensures v == if key in items then Some(items[key]) else None
    {
      v := if key in items then Some(items[key]) else None;
    }

    method SetItem(key: string, value: string)
      modifies this
      ensures items == old(items)[key := value]
    {
      items := items[key := value];
    }
  }

  const ThemeKey: string := "theme"
  const InvalidId: string := "Invalid task ID"
  const StartFailed: string := "Не удалось начать задачу: "
  const AddFailed: string := "Не удалось добавить задачу: "
  const UpdateFailed: string := "Не удалось обновить задачу: "
  const DeleteFailed: string := "Не удалось удалить задачу: "
  const NotFound: string := "Задача не найдена"

  /** The message `deleteTask` shows for an error message `m`. */
  function OrUnknown(m: string): (r: string)
    ensures r != ""
    ensures m != "" ==> r == m
    ensures m == "" ==> r == "Unknown error"
  {
    if m == "" then "Unknown error" else m
  }

  /** The task list view. Besides the state of the source object it holds
      the values of the creation form's inputs and the messages shown to
      the user with `alert`. */
  class TodoApp {
    var tasks: seq<Task>
    var currentFilter: string
    var currentSort: string
    var theme: string
    var taskToDelete: Option<Task>

    var titleInput: string
    var descInput: string
    var priorityInput: string
    var startDateInput: string
    var endDateInput: Option<int>

    var alerts: seq<string>

    const bridge: Bridge
    const storage: LocalStorage

    /** Starts with the default filter and sort, restores the theme and
        loads the task list. */
    constructor (bridge: Bridge, storage: LocalStorage)
      modifies bridge`calls
      ensures this.bridge == bridge && this.storage == storage
      ensures currentFilter == "all" && currentSort == "date" && taskToDelete == None
      ensures theme == RestoredTheme(if ThemeKey in storage.items then Some(storage.items[ThemeKey]) else None)
      ensures bridge.calls == old(bridge.calls) + [GetTasksCall]
      ensures tasks == if GetTasksOp in bridge.failing then [] else bridge.stored
      ensures alerts == []
      ensures titleInput == "" && descInput == "" && priorityInput == "medium"
      ensures startDateInput == "" && endDateInput == None
    {
      this.bridge := bridge;
      this.storage := storage;
      tasks := [];
      currentFilter := "all";
      currentSort := "date";
      theme := "light";
      taskToDelete := None;
      titleInput, descInput, priorityInput := "", "", "medium";
      startDateInput, endDateInput := "", None;
      alerts := [];
      new;
      LoadTheme();
      LoadTasks();
    }

    /** Replaces the list by the store's; a failing fetch is only logged
        and leaves the list as it was. */
    method LoadTasks()
      modifies this`tasks, bridge`calls
      ensures bridge.calls == old(bridge.calls) + [GetTasksCall]
      ensures tasks == if GetTasksOp in bridge.failing then old(tasks) else bridge.stored
    {
      var r := bridge.GetTasks();
      if r.Success? {
        tasks := r.value;
      }
    }

    /** The task the creation form describes, with the given id and
        creation instant: not started, with the trimmed title and
        description, the priority of the selector and the end date as its
        deadline. */
    function Draft(uuid: string, now: int): (t: Task)
      reads this
      ensures t.status == NotStarted && 1 <= t.priority <= 3
      ensures t.title == Trim(titleInput) && t.body == Trim(descInput)
      ensures t.priority == PriorityOfChoice(priorityInput)
      ensures t.id == uuid && t.createdAt == now && t.deadline == endDateInput
    {
      Task(uuid, Trim(titleInput), Trim(descInput), PriorityOfChoice(priorityInput),
           NotStarted, now, endDateInput)
    }

    /** Creates a task from the form. A title that is empty after trimming
        does nothing at all. Otherwise the store is asked to create the
        drafted task; on success the list is reloaded and the form reset, on
        failure the user is told and the form kept. The id and the creation
        instant are given by the caller. */
    method AddTask(uuid: string, now: int)
      modifies this`tasks, this`alerts, this`titleInput, this`descInput, this`priorityInput
      modifies this`startDateInput, this`endDateInput, bridge`stored, bridge`calls
      ensures Trim(old(titleInput)) == [] ==> unchanged(this) && unchanged(bridge)
      ensures Trim(old(titleInput)) != [] && CreateTaskOp in bridge.failing ==>
        && bridge.calls == old(bridge.calls) + [CreateTaskCall(old(Draft(uuid, now)))]
        && bridge.stored == old(bridge.stored)
        && alerts == old(alerts) + [AddFailed + bridge.failMessage]
        && unchanged(this`tasks, this`titleInput, this`descInput, this`priorityInput)
        && unchanged(this`startDateInput, this`endDateInput)
      ensures Trim(old(titleInput)) != [] && CreateTaskOp !in bridge.failing ==>
        && bridge.calls == old(bridge.calls) + [CreateTaskCall(old(Draft(uuid, now))), GetTasksCall]
        && bridge.stored == old(bridge.stored) + [old(Draft(uuid, now))]
        && alerts == old(alerts)
        && tasks == (if GetTasksOp in bridge.failing then old(tasks) else bridge.stored)
        && titleInput == "" && descInput == "" && priorityInput == "medium"
        && startDateInput == "" && endDateInput == None
    {
      var title := Trim(titleInput);
      if title == [] {
        return;
      }
      var task := Draft(uuid, now);
      Submit(task);
    }

    /** The part of `addTask` after the title check: asks the store to
        create `task`; on success reloads the list and resets the form, on
        failure tells the user and keeps the form. */
    method Submit(task: Task)
      modifies this`tasks, this`alerts, this`titleInput, this`descInput, this`priorityInput
      modifies this`startDateInput, this`endDateInput, bridge`stored, bridge`calls
      ensures CreateTaskOp in bridge.failing ==>
        && bridge.calls == old(bridge.calls) + [CreateTaskCall(task)]
        && bridge.stored == old(bridge.stored)
        && alerts == old(alerts) + [AddFailed + bridge.failMessage]
        && unchanged(this`tasks, this`titleInput, this`descInput, this`priorityInput)
        && unchanged(this`startDateInput, this`endDateInput)
      ensures CreateTaskOp !in bridge.failing ==>
        && bridge.calls == old(bridge.calls) + [CreateTaskCall(task), GetTasksCall]
        && bridge.stored == old(bridge.stored) + [task]
        && alerts == old(alerts)
        && tasks == (if GetTasksOp in bridge.failing then old(tasks) else bridge.stored)
        && titleInput == "" && descInput == "" && priorityInput == "medium"
        && startDateInput == "" && endDateInput == None
    {
      var r := bridge.CreateTask(task);
      if r.Fail? {
        alerts := alerts + [AddFailed + r.error];
        return;
      }
      LoadTasks();
      titleInput, descInput, startDateInput, endDateInput := "", "", "", None;
      priorityInput := "medium";
    }

    /** Toggles a task: an empty id is refused before any call, an id not in
        the list is only logged, and otherwise the store is asked for the
        next status of the listed task and the list is reloaded. */
    method ToggleTask(id: string)
      modifies this`tasks, this`alerts, bridge`stored, bridge`calls
      ensures id == "" ==>
        && alerts == old(alerts) + [UpdateFailed + InvalidId]
        && tasks == old(tasks) && bridge.calls == old(bridge.calls)
        && bridge.stored == old(bridge.stored)
      ensures id != "" && FindById(old(tasks), id).None? ==>
        && alerts == old(alerts) && tasks == old(tasks)
        && bridge.calls == old(bridge.calls) && bridge.stored == old(bridge.stored)
      ensures id != "" && FindById(old(tasks), id).Some? ==>
        var next := NextStatus(FindById(old(tasks), id).value.status);
        if UpdateTaskStatusOp in bridge.failing then
          && bridge.calls == old(bridge.calls) + [UpdateTaskStatusCall(id, next)]
          && bridge.stored == old(bridge.stored)
          && alerts == old(alerts) + [UpdateFailed + bridge.failMessage]
          && tasks == old(tasks)
        else
          && bridge.calls == old(bridge.calls) + [UpdateTaskStatusCall(id, next), GetTasksCall]
          && bridge.stored == WithStatus(old(bridge.stored), id, next)
          && alerts == old(alerts)
          && tasks == (if GetTasksOp in bridge.failing then old(tasks) else bridge.stored)
    {
      if id == "" {
        alerts := alerts + [UpdateFailed + InvalidId];
        return;
      }
      var found := FindById(tasks, id);
      if found.None? {
        return;
      }
      var next := NextStatus(found.value.status);
      var r := bridge.UpdateTaskStatus(id, next);
      if r.Fail? {
        alerts := alerts + [UpdateFailed + r.error];
        return;
      }
      LoadTasks();
    }

    /** Starts a task: an empty id is refused before any call; otherwise
        the store is asked to put the task in progress, whatever its current
        status, and the list is reloaded. */
    method StartTask(id: string)
      modifies this`tasks, this`alerts, bridge`stored, bridge`calls
      ensures id == "" ==>
        && alerts == old(alerts) + [StartFailed + InvalidId]
        && tasks == old(tasks) && bridge.calls == old(bridge.calls)
        && bridge.stored == old(bridge.stored)
      ensures id != "" && UpdateTaskStatusOp in bridge.failing ==>
        && bridge.calls == old(bridge.calls) + [UpdateTaskStatusCall(id, InProgress)]
        && bridge.stored == old(bridge.stored)
        && alerts == old(alerts) + [StartFailed + bridge.failMessage]
        && tasks == old(tasks)
      ensures id != "" && UpdateTaskStatusOp !in bridge.failing ==>
        && bridge.calls == old(bridge.calls) + [UpdateTaskStatusCall(id, InProgress), GetTasksCall]
        && bridge.stored == WithStatus(old(bridge.stored), id, InProgress)
        && alerts == old(alerts)
        && tasks == (if GetTasksOp in bridge.failing then old(tasks) else bridge.stored)
    {
      if id == "" {
        alerts := alerts + [StartFailed + InvalidId];
        return;
      }
      var r := bridge.UpdateTaskStatus(id, InProgress);
      if r.Fail? {
        alerts := alerts + [StartFailed + r.error];
        return;
      }
      LoadTasks();
    }

    /** Stages `task` for deletion and asks for confirmation. */
    method ShowDeleteModal(task: Task)
      modifies this`taskToDelete
      ensures taskToDelete == Some(task)
    {
      taskToDelete := Some(task);
    }

    /** Stages the first listed task with id `taskId`, or tells the user
        that there is none. */
    method ShowDeleteModalById(taskId: string)
      modifies this`taskToDelete, this`alerts
      ensures FindById(tasks, taskId).Some? ==>
        taskToDelete == FindById(tasks, taskId) && alerts == old(alerts)
      ensures FindById(tasks, taskId).None? ==>
        taskToDelete == old(taskToDelete) && alerts == old(alerts) + [NotFound]
    {
      var found := FindById(tasks, taskId);
      if found.Some? {
        ShowDeleteModal(found.value);
      } else {
        alerts := alerts + [NotFound];
      }
    }

    /** Cancels a staged deletion. */
    method HideDeleteModal()
      modifies this`taskToDelete
      ensures taskToDelete == None
    {
      taskToDelete := None;
    }

    /** Deletes the staged task. Without one nothing happens. An empty id is
        refused before any call. When the store refuses, the user is told
        and the task stays staged. When the store deletes it, the list is
        reloaded (a failing reload is only logged) and the stage cleared. */
    method DeleteTask()
      modifies this`tasks, this`alerts, this`taskToDelete, bridge`stored, bridge`calls
      ensures old(taskToDelete).None? ==> unchanged(this) && unchanged(bridge)
      ensures old(taskToDelete).Some? && old(taskToDelete).value.id == "" ==>
        && alerts == old(alerts) + [DeleteFailed + InvalidId]
        && taskToDelete == old(taskToDelete) && tasks == old(tasks)
        && bridge.calls == old(bridge.calls) && bridge.stored == old(bridge.stored)
      ensures old(taskToDelete).Some? && old(taskToDelete).value.id != "" ==>
        var id := old(taskToDelete).value.id;
        if DeleteTaskOp in bridge.failing then
          && bridge.calls == old(bridge.calls) + [DeleteTaskCall(id)]
          && bridge.stored == old(bridge.stored)
          && alerts == old(alerts) + [DeleteFailed + OrUnknown(bridge.failMessage)]
          && taskToDelete == old(taskToDelete) && tasks == old(tasks)
        else
          && bridge.calls == old(bridge.calls) + [DeleteTaskCall(id), GetTasksCall]
          && bridge.stored == WithoutId(old(bridge.stored), id)
          && alerts == old(alerts) && taskToDelete == None
          && tasks == (if GetTasksOp in bridge.failing then old(tasks) else bridge.stored)
    {
      if taskToDelete.None? {
        return;
      }
      var id := taskToDelete.value.id;
      if id == "" {
        alerts := alerts + [DeleteFailed + InvalidId];
        return;
      }
      var r := bridge.DeleteTask(id);
      if r.Fail? {
        alerts := alerts + [DeleteFailed + OrUnknown(r.error)];
        return;
      }
      LoadTasks();
      HideDeleteModal();
    }

    /** Selects a view filter and reloads the list. */
    method SetFilter(filter: string)
      modifies this`currentFilter, this`tasks, bridge`calls
      ensures currentFilter == filter
      ensures bridge.calls == old(bridge.calls) + [GetTasksCall]
      ensures tasks == if GetTasksOp in bridge.failing then old(tasks) else bridge.stored
    {
      currentFilter := filter;
      LoadTasks();
    }

    /** Selects a sort order (the sort selector's change handler). */
    method SetSort(key: string)
      modifies this`currentSort
      ensures currentSort == key
    {
      currentSort := key;
    }

    /** Flips the theme and stores the new one. */
    method ToggleTheme()
      modifies this`theme, storage
      ensures theme == NextTheme(old(theme))
      ensures storage.items == old(storage.items)[ThemeKey := theme]
    {
      theme := NextTheme(theme);
      storage.SetItem(ThemeKey, theme);
    }

    /** Restores the stored theme, light when none is stored. */
    method LoadTheme()
      modifies this`theme
      ensures theme == RestoredTheme(if ThemeKey in storage.items then Some(storage.items[ThemeKey]) else None)
    {
      var saved := storage.GetItem(ThemeKey);
      theme := RestoredTheme(saved);
    }

    /** The tasks `renderTasks` shows at the instants of `c`. */
    function View(c: Clock): (r: seq<Task>)
      reads this
      ensures forall t :: multiset(r)[t] == if Matches(currentFilter, c, t) then multiset(tasks)[t] else 0
    {
      Render(tasks, currentFilter, currentSort, c)
    }
  }

  /** Creating "Buy milk" with high priority and reloading lists, last, a
      task with that title, priority 3, the given id and status not started,
      and resets the form. */
  method CreateThenLoad(bridge: Bridge, storage: LocalStorage) returns (last: Task)
    requires bridge.failing == {}
    modifies bridge
    ensures last.title == "Buy milk" && last.priority == 3
    ensures last.status == NotStarted && last.id == "3f1c2a9e-0b7d-4c55-9a1e-2d6b8f0c4e71"
    ensures bridge.stored != [] && last == bridge.stored[|bridge.stored| - 1]
  {
    var app := new TodoApp(bridge, storage);
    app.titleInput := "Buy milk";
    app.priorityInput := "high";
    TrimBuyMilk();
    app.AddTask("3f1c2a9e-0b7d-4c55-9a1e-2d6b8f0c4e71", 1_700_000_000_000);
    last := app.tasks[|app.tasks| - 1];
    assert app.titleInput == "" && app.priorityInput == "medium";
  }

  lemma TrimBuyMilk()
    ensures Trim("Buy milk") == "Buy milk"
  {
    assert LeadingSpace("Buy milk") == 0;
    assert TrailingCut("Buy milk", 0) == 8;
  }

  /** A theme set by the toggle is the one a new view restores. */
  method ThemeSurvivesReload(bridge: Bridge, storage: LocalStorage)
    returns (chosen: string, restored: string)
    modifies bridge, storage
    ensures chosen == "light" || chosen == "dark"
    ensures restored == chosen
  {
    var app := new TodoApp(bridge, storage);
    app.ToggleTheme();
    chosen := app.theme;
    var reloaded := new TodoApp(bridge, storage);
    restored := reloaded.theme;
  }

  /** Staging a deletion and cancelling it leaves the list and the store as
      they were and clears the stage; staging and confirming removes the
      staged task from the store and clears the stage. */
  method StageThenCancelOrConfirm(bridge: Bridge, storage: LocalStorage, task: Task)
    returns (cancelled: seq<Task>, storedAfterCancel: seq<Task>, stageAfterCancel: Option<Task>,
             stageAfterConfirm: Option<Task>)
    requires bridge.failing == {} && task.id != ""
    modifies bridge
    ensures cancelled == old(bridge.stored) && storedAfterCancel == old(bridge.stored)
    ensures stageAfterCancel == None && stageAfterConfirm == None
    ensures task !in bridge.stored
    ensures forall t :: t in old(bridge.stored) && t.id != task.id ==> t in bridge.stored
  {
    var app := new TodoApp(bridge, storage);
    app.ShowDeleteModal(task);
    app.HideDeleteModal();
    cancelled, storedAfterCancel, stageAfterCancel := app.tasks, bridge.stored, app.taskToDelete;
    app.ShowDeleteModal(task);
    app.DeleteTask();
    stageAfterConfirm := app.taskToDelete;
  }
}
