/** The backend handlers (backend/internal/adapter/handler/handler.go): the
    operations the desktop bridge calls, each a thin layer over the task
    service, and the parsers from request strings to the filter, sort and
    priority names. */
module Handler {
  import opened Common
  import opened Core
  import opened Models
  import opened Repository
  import opened Service

  /** The list with the completion flag of its first task carrying `id`
      flipped; a list without that id is returned as it is. */
  function ToggleFirst(s: seq<Task>, id: string): (r: seq<Task>)
    ensures |r| == |s|
    ensures forall k :: 0 <= k < |s| ==>
      r[k].id == s[k].id && r[k].text == s[k].text
      && r[k].createdAt == s[k].createdAt && r[k].priority == s[k].priority
      && r[k].dueDate == s[k].dueDate
    ensures forall k :: 0 <= k < |s| ==>
      (r[k].completed != s[k].completed <==> k == IndexOfId(s, id))
  {
    var i := IndexOfId(s, id);
    if i < |s| then ReplaceFirst(s, s[i].(completed := !s[i].completed)) else s
  }

  /** Toggling the same id twice restores the list. */
  lemma ToggleTwice(s: seq<Task>, id: string)
    ensures ToggleFirst(ToggleFirst(s, id), id) == s
  {
    var r := ToggleFirst(s, id);
    var i := IndexOfId(s, id);
    if i < |s| {
      ReplaceFirstThenFind(s, s[i].(completed := !s[i].completed));
      assert IndexOfId(r, id) == i;
      assert r[i].(completed := !r[i].completed) == s[i];
      assert ToggleFirst(r, id) == r[i := s[i]];
      assert r[i := s[i]] == s;
    }
  }

  class TaskHandlers {
    const service: TaskService

    constructor (service: TaskService)
      ensures this.service == service
    {
      this.service := service;
    }

    /** The stored tasks `filter` keeps, sorted by `sortBy`, or the read
        error. */
    method GetTasks(filter: FilterType, sortBy: SortType, c: Clock)
      returns (r: Result<seq<Task>, Error>)
      ensures r.Failure? <==> service.repo.getFails
      ensures r.Failure? ==> r.error == ReadFailure
      ensures r.Success? ==>
        IsSortOf(sortBy, r.value, Filtered(service.repo.stored, filter, c))
    {
      var read := service.GetAllTasks();
      if read.Failure? {
        return Failure(read.error);
      }
      var filtered := service.FilterTasks(read.value, filter, c);
      var sorted := service.SortTasks(filtered, sortBy);
      r := Success(sorted);
    }

    /** Refuses an empty text before touching the repository; otherwise
        adds the task through the service. */
    method AddTask(text: string, priority: Priority, dueDate: int, id: string, now: int)
      returns (r: Result<Task, Error>)
      modifies service.repo`stored, service.repo`saveCalls
      ensures text == "" ==> r == Failure(ErrEmptyTaskText)
      ensures text == "" || service.repo.getFails ==>
        service.repo.stored == old(service.repo.stored)
        && service.repo.saveCalls == old(service.repo.saveCalls)
      ensures text != "" && service.repo.getFails ==> r == Failure(ReadFailure)
      ensures text != "" && !service.repo.getFails ==>
        service.repo.saveCalls == old(service.repo.saveCalls) + 1
      ensures text != "" && !service.repo.getFails && service.repo.saveFails ==>
        r == Failure(WriteFailure) && service.repo.stored == old(service.repo.stored)
      ensures text != "" && !service.repo.getFails && !service.repo.saveFails ==>
        var t := Task(id, text, false, now, priority, dueDate);
        r == Success(t) && service.repo.stored == old(service.repo.stored) + [t]
    {
      if text == "" {
        return Failure(ErrEmptyTaskText);
      }
      r := service.AddTask(text, priority, dueDate, id, now);
    }

    /** Replaces the stored task with `task`'s id through the service. */
    method UpdateTask(task: Task) returns (r: Outcome<Error>)
      modifies service.repo`stored, service.repo`saveCalls
      ensures service.repo.getFails ==>
        r == Fail(ReadFailure) && service.repo.stored == old(service.repo.stored)
        && service.repo.saveCalls == old(service.repo.saveCalls)
      ensures !service.repo.getFails ==>
        service.repo.saveCalls == old(service.repo.saveCalls) + 1
        && r == (if service.repo.saveFails then Fail(WriteFailure) else Pass)
        && service.repo.stored == if service.repo.saveFails then old(service.repo.stored)
                                  else ReplaceFirst(old(service.repo.stored), task)
    {
      r := service.UpdateTask(task);
    }

    /** Deletes the stored task with id `id` through the service. */
    method DeleteTask(id: string) returns (r: Outcome<Error>)
      modifies service.repo`stored, service.repo`saveCalls
      ensures service.repo.getFails ==>
        r == Fail(ReadFailure) && service.repo.stored == old(service.repo.stored)
        && service.repo.saveCalls == old(service.repo.saveCalls)
      ensures !service.repo.getFails ==>
        service.repo.saveCalls == old(service.repo.saveCalls) + 1
        && r == (if service.repo.saveFails then Fail(WriteFailure) else Pass)
        && service.repo.stored == if service.repo.saveFails then old(service.repo.stored)
                                  else RemoveFirst(old(service.repo.stored), id)
    {
      r := service.DeleteTask(id);
    }

    /** Flips the completion flag of the stored task with id `id`. An
        unknown id is reported as not found without saving anything. */
    method ToggleTask(id: string) returns (r: Outcome<Error>)
      modifies service.repo`stored, service.repo`saveCalls
      ensures var before := old(service.repo.stored);
        service.repo.getFails || IndexOfId(before, id) == |before| ==>
          service.repo.stored == before
          && service.repo.saveCalls == old(service.repo.saveCalls)
      ensures service.repo.getFails ==> r == Fail(ReadFailure)
      ensures var before := old(service.repo.stored);
        !service.repo.getFails && IndexOfId(before, id) == |before| ==>
          r == Fail(ErrTaskNotFound)
      ensures var before := old(service.repo.stored);
        !service.repo.getFails && IndexOfId(before, id) < |before| ==>
          service.repo.saveCalls == old(service.repo.saveCalls) + 1
          && r == (if service.repo.saveFails then Fail(WriteFailure) else Pass)
          && service.repo.stored == if service.repo.saveFails then before
                                    else ToggleFirst(before, id)
    {
      var read := service.GetAllTasks();
      if read.Failure? {
        return Fail(read.error);
      }
      var tasks := read.value;
      var i := 0;
      while i < |tasks|
        invariant 0 <= i <= |tasks|
        invariant forall k :: 0 <= k < i ==> tasks[k].id != id
      {
        if tasks[i].id == id {
          break;
        }
        i := i + 1;
      }
      assert i == IndexOfId(tasks, id);
      if i == |tasks| {
        return Fail(ErrTaskNotFound);
      }
      var task := tasks[i].(completed := !tasks[i].completed);
      r := service.UpdateTask(task);
    }
  }

  /** The filter a request names: the name itself when it is one of the six
      constants, `all` for anything else. */
  function ParseFilterType(s: string): (f: FilterType)
    ensures IsFilterConstant(f)
    ensures IsFilterConstant(s) ==> f == s
    ensures !IsFilterConstant(s) ==> f == FilterAll
  {
    if s == "active" then FilterActive
    else if s == "completed" then FilterCompleted
    else if s == "today" then FilterToday
    else if s == "week" then FilterWeek
    else if s == "overdue" then FilterOverdue
    else FilterAll
  }

  /** The sort key a request names, as the handler maps it: `priority`
      yields the date order and every other string the priority order. */
  function ParseSortType(s: string): (t: SortType)
    ensures IsSortConstant(t)
    ensures t == SortDate <==> s == "priority"
  {
    if s == "priority" then SortDate else SortPriority
  }

  /** Neither name of a sort order parses to itself. */
  lemma ParseSortTypeSwapsNames()
    ensures ParseSortType(SortPriority) == SortDate
    ensures ParseSortType(SortDate) == SortPriority
    ensures forall s :: IsSortConstant(s) ==> ParseSortType(s) != s
  {
  }

  /** The sort key a request names, as evidently intended: each name of a
      sort order parses to itself, and anything else to the date order the
      user interface starts with. */
  function ParseSortTypeIntended(s: string): (t: SortType)
    ensures IsSortConstant(t)
    ensures IsSortConstant(s) ==> t == s
    ensures !IsSortConstant(s) ==> t == SortDate
  {
    if s == "priority" then SortPriority else SortDate
  }

  /** The priority a request names: `2` or `medium` is medium, `3` or `high`
      is high, anything else low. */
  function ParsePriority(s: string): (p: Priority)
    ensures IsPriorityConstant(p)
    ensures IsPriorityConstant(s) ==> p == s
    ensures p == PriorityMedium <==> s == "2" || s == PriorityMedium
    ensures p == PriorityHigh <==> s == "3" || s == PriorityHigh
  {
    if s == "2" || s == "medium" then PriorityMedium
    else if s == "3" || s == "high" then PriorityHigh
    else PriorityLow
  }

  /** Parsing a priority and parsing its name again give the same
      priority. */
  lemma ParsePriorityIdempotent(s: string)
    ensures ParsePriority(ParsePriority(s)) == ParsePriority(s)
  {
  }
}
