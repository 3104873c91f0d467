/** The backend task service (backend/internal/app/service/task_service.go):
    adding, replacing and deleting tasks in the repository, and filtering
    and sorting a task list. The clock and the identifier generator are
    parameters: `now` is the instant `time.Now()` returns and `id` the string
    `generateID()` returns. */
module Service {
  import opened Common
  import opened Core
  import opened Models
  import opened Repository

  // ---------------------------------------------------------------------
  // Finding, replacing and removing by id
  // ---------------------------------------------------------------------

  /** The position of the first task whose id is `id`, or `|s|` when there
      is none. */
  function IndexOfId(s: seq<Task>, id: string): (i: nat)
    ensures i <= |s|
    ensures forall k :: 0 <= k < i ==> s[k].id != id
    ensures i < |s| ==> s[i].id == id
  {
    FirstIndex(s, (t: Task) => t.id == id)
  }

  /** The list with its first task carrying `task.id` replaced by `task`;
      every other position is kept, and a list without that id is returned
      as it is. */
  function ReplaceFirst(s: seq<Task>, task: Task): (r: seq<Task>)
    ensures |r| == |s|
    ensures forall k :: 0 <= k < |s| && k != IndexOfId(s, task.id) ==> r[k] == s[k]
    ensures IndexOfId(s, task.id) < |s| ==> r[IndexOfId(s, task.id)] == task
  {
    var i := IndexOfId(s, task.id);
    if i < |s| then s[i := task] else s
  }

  /** Replacing keeps the id at every position. */
  lemma ReplaceFirstKeepsIds(s: seq<Task>, task: Task)
    ensures forall k :: 0 <= k < |s| ==> ReplaceFirst(s, task)[k].id == s[k].id
  {
  }

  /** After a replacement the first task with that id is the new one, when
      the list held the id at all, and the replacement is idempotent. */
  lemma ReplaceFirstThenFind(s: seq<Task>, task: Task)
    ensures var r := ReplaceFirst(s, task);
      IndexOfId(r, task.id) == IndexOfId(s, task.id)
      && (IndexOfId(s, task.id) < |s| ==> r[IndexOfId(r, task.id)] == task)
      && ReplaceFirst(r, task) == r
  {
    ReplaceFirstKeepsIds(s, task);
  }

  /** The list without its first task carrying `id`, the rest in order; a
      list without that id is returned as it is. */
  function RemoveFirst(s: seq<Task>, id: string): (r: seq<Task>)
    ensures Subseq(r, s)
    ensures IndexOfId(s, id) == |s| ==> r == s
    ensures IndexOfId(s, id) < |s| ==>
      |r| == |s| - 1 && multiset(r) + multiset{s[IndexOfId(s, id)]} == multiset(s)
    ensures forall k :: 0 <= k < IndexOfId(s, id) && k < |r| ==> r[k] == s[k]
    ensures forall k :: IndexOfId(s, id) <= k < |r| ==> r[k] == s[k + 1]
  {
    var i := IndexOfId(s, id);
    if i == |s| then
      SubseqRefl(s);
      s
    else
      RemoveIsSubseq(s, i);
      RemoveAt(s, i, s[..i] + s[i + 1..]);
      s[..i] + s[i + 1..]
  }

  /** Dropping position `i` (giving `r`) shortens the list by one, removes one copy of
      `s[i]` and shifts the later tasks down by one. */
  lemma RemoveAt(s: seq<Task>, i: nat, r: seq<Task>)
    requires i < |s| && r == s[..i] + s[i + 1..]
    ensures |r| == |s| - 1
    ensures multiset(r) + multiset{s[i]} == multiset(s)
    ensures forall k :: 0 <= k < i ==> r[k] == s[k]
    ensures forall k :: i <= k < |r| ==> r[k] == s[k + 1]
  {
    assert s == s[..i] + [s[i]] + s[i + 1..];
  }

  /** Dropping one position leaves a subsequence. */
  lemma {:induction false} RemoveIsSubseq(s: seq<Task>, i: nat)
    requires i < |s|
    ensures Subseq(s[..i] + s[i + 1..], s)
    decreases |s|
  {
    var last := s[|s| - 1];
    var front := s[..|s| - 1];
    if i == |s| - 1 {
      assert s[..i] + s[i + 1..] == front;
      SubseqRefl(front);
      SubseqDrop(front, front, last);
      assert s == front + [last];
    } else {
      RemoveIsSubseq(front, i);
      assert front[..i] + front[i + 1..] + [last] == s[..i] + s[i + 1..];
      SubseqKeep(front[..i] + front[i + 1..], front, last);
      assert s == front + [last];
    }
  }

  /** Ids are unique in `s`. */
  predicate UniqueIds(s: seq<Task>)
  {
    forall p, q :: 0 <= p < q < |s| ==> s[p].id != s[q].id
  }

  /** In a list with unique ids, removing by id leaves no task with that id,
      and the ids stay unique. The service does not keep ids unique: two
      tasks added within the same second get the same id, and then only the
      first of them is removed. */
  lemma RemoveFirstOfUnique(s: seq<Task>, id: string)
    requires UniqueIds(s)
    ensures forall k :: 0 <= k < |RemoveFirst(s, id)| ==> RemoveFirst(s, id)[k].id != id
    ensures UniqueIds(RemoveFirst(s, id))
  {
    var r := RemoveFirst(s, id);
    var i := IndexOfId(s, id);
    forall k | 0 <= k < |r|
      ensures r[k].id != id
    {
      if i < |s| && i <= k {
        assert r[k] == s[k + 1];
      }
    }
    forall p, q | 0 <= p < q < |r|
      ensures r[p].id != r[q].id
    {
      var p' := if p < i then p else p + 1;
      var q' := if q < i then q else q + 1;
      assert r[p] == s[p'] && r[q] == s[q'];
    }
  }

  // ---------------------------------------------------------------------
  // Filtering
  // ---------------------------------------------------------------------

  /** The instants the filters compare due dates with: the current instant,
      the local midnight starting today, the one starting tomorrow, and the
      midnight seven days after today's. */
  datatype Clock = Clock(now: int, today: int, tomorrow: int, weekEnd: int)

  /** Whether the filter named `filter` keeps task `t`. All comparisons of
      instants are strict; a name that is none of the six constants keeps
      nothing. */
  predicate Keeps(filter: FilterType, c: Clock, t: Task)
  {
    if filter == FilterAll then true
    else if filter == FilterActive then !t.completed
    else if filter == FilterCompleted then t.completed
    else if filter == FilterToday then !t.completed && c.today < t.dueDate < c.tomorrow
    else if filter == FilterWeek then !t.completed && c.now < t.dueDate < c.weekEnd
    else if filter == FilterOverdue then !t.completed && t.dueDate < c.now
    else false
  }

  /** `all` keeps every task and an unknown filter none; `active` and
      `completed` split on the completion flag, and the three date filters
      keep open tasks only. */
  lemma KeepsMeaning(filter: FilterType, c: Clock, t: Task)
    ensures filter == FilterAll ==> Keeps(filter, c, t)
    ensures !IsFilterConstant(filter) ==> !Keeps(filter, c, t)
    ensures filter == FilterActive ==> (Keeps(filter, c, t) <==> !t.completed)
    ensures filter == FilterCompleted ==> (Keeps(filter, c, t) <==> t.completed)
    ensures (filter == FilterToday || filter == FilterWeek || filter == FilterOverdue) && Keeps(filter, c, t) ==>
      !t.completed
  {
  }

  /** The tasks `filter` keeps: an order-preserving subsequence of `tasks`
      holding each kept task as many times as `tasks` does, and nothing
      else. */
  function Filtered(tasks: seq<Task>, filter: FilterType, c: Clock): (r: seq<Task>)
    ensures Subseq(r, tasks)
    ensures forall i :: 0 <= i < |r| ==> Keeps(filter, c, r[i])
    ensures forall t :: multiset(r)[t] == if Keeps(filter, c, t) then multiset(tasks)[t] else 0
  {
    Select(tasks, (t: Task) => Keeps(filter, c, t))
  }

  /** Filtering one more task extends the result by that task exactly when
      the filter keeps it. */
  lemma FilteredSnoc(s: seq<Task>, x: Task, filter: FilterType, c: Clock)
    ensures Filtered(s + [x], filter, c)
            == Filtered(s, filter, c) + (if Keeps(filter, c, x) then [x] else [])
  {
    SelectSnoc(s, x, (t: Task) => Keeps(filter, c, t));
  }

  /** `all` returns the list unchanged; a name outside the six constants
      returns nothing. */
  lemma AllAndUnknownFilters(tasks: seq<Task>, filter: FilterType, c: Clock)
    ensures filter == FilterAll ==> Filtered(tasks, filter, c) == tasks
    ensures !IsFilterConstant(filter) ==> Filtered(tasks, filter, c) == []
  {
    if filter == FilterAll {
      SelectAll(tasks, (t: Task) => Keeps(filter, c, t));
    } else if !IsFilterConstant(filter) {
      SelectNone(tasks, (t: Task) => Keeps(filter, c, t));
    }
  }

  /** `active` and `completed` split the list: together they hold every
      task exactly as often as the list does. */
  lemma ActiveAndCompletedSplit(tasks: seq<Task>, c: Clock)
    ensures multiset(Filtered(tasks, FilterActive, c)) + multiset(Filtered(tasks, FilterCompleted, c))
            == multiset(tasks)
  {
    var a := multiset(Filtered(tasks, FilterActive, c));
    var d := multiset(Filtered(tasks, FilterCompleted, c));
    assert forall t :: (a + d)[t] == multiset(tasks)[t];
  }

  /** The three date filters keep only open tasks, and a task `today`
      keeps that is still to come is kept by `week` too, tomorrow's midnight
      lying within the week. */
  lemma DateFiltersKeepOpenTasks(c: Clock, t: Task)
    ensures Keeps(FilterToday, c, t) || Keeps(FilterWeek, c, t) || Keeps(FilterOverdue, c, t)
            ==> !t.completed
    ensures c.tomorrow <= c.weekEnd && Keeps(FilterToday, c, t) && c.now < t.dueDate
            ==> Keeps(FilterWeek, c, t)
  {
  }

  /** A task without a due date carries Go's zero time, which lies before
      any current instant after year 1: `overdue` keeps it while it is
      open. */
  lemma UndatedOpenTaskIsOverdue(c: Clock, t: Task)
    requires t.dueDate == ZeroTime && ZeroTime < c.now
    ensures Keeps(FilterOverdue, c, t) <==> !t.completed
  {
  }

  // ---------------------------------------------------------------------
  // Sorting
  // ---------------------------------------------------------------------

  /** The rank the priority sort compares: high 0, medium 1, low 2; a
      priority outside the three constants reads the map's zero value. */
  function Rank(p: Priority): (r: int)
    ensures 0 <= r <= 2
    ensures r == 2 <==> p == PriorityLow
    ensures r == 1 <==> p == PriorityMedium
    ensures IsPriorityConstant(p) ==> (r == 0 <==> p == PriorityHigh)
  {
    if p == PriorityHigh then 0
    else if p == PriorityMedium then 1
    else if p == PriorityLow then 2
    else 0
  }

  /** The `less` function the service hands to the sort: newest first for
      `date`; for `priority`, by rank, and newest first among equal
      priorities. A key outside the two constants compares nothing. */
  predicate Less(sortBy: SortType, a: Task, b: Task)
  {
    if sortBy == SortDate then a.createdAt > b.createdAt
    else if sortBy == SortPriority then
      if a.priority == b.priority then a.createdAt > b.createdAt
      else Rank(a.priority) < Rank(b.priority)
    else false
  }

  /** The comparison is irreflexive and compares nothing under an unknown
      key; the date order and ties on priority put the newer task first, and
      between two different priority constants high comes before medium and
      low, and medium before low. */
  lemma LessMeaning(sortBy: SortType, a: Task, b: Task)
    ensures a == b || !IsSortConstant(sortBy) ==> !Less(sortBy, a, b)
    ensures sortBy == SortDate || (sortBy == SortPriority && a.priority == b.priority) ==>
      (Less(sortBy, a, b) <==> a.createdAt > b.createdAt)
    ensures sortBy == SortPriority && IsPriorityConstant(a.priority)
            && IsPriorityConstant(b.priority) && a.priority != b.priority ==>
      (Less(sortBy, a, b) <==> a.priority == PriorityHigh || b.priority == PriorityLow)
  {
  }

  /** The tasks the comparison orders consistently: every task for `date`,
      tasks with one of the three priority constants for `priority`. */
  predicate Ranked(sortBy: SortType, s: seq<Task>)
  {
    forall t :: t in s ==> sortBy != SortPriority || IsPriorityConstant(t.priority)
  }

  /** No task is placed after one it should precede. */
  predicate Ordered(sortBy: SortType, s: seq<Task>)
  {
    forall p, q :: 0 <= p < q < |s| ==> !Less(sortBy, s[q], s[p])
  }

  /** `Ordered` among the first `n` positions, position `skip` left out. */
  predicate OrderedExcept(sortBy: SortType, s: seq<Task>, n: int, skip: int)
    requires 0 <= n <= |s|
  {
    forall p, q :: 0 <= p < q < n && p != skip && q != skip ==> !Less(sortBy, s[q], s[p])
  }

  /** The comparison is a strict order: it never holds both ways. */
  lemma LessAsymmetric(sortBy: SortType, a: Task, b: Task)
    ensures !(Less(sortBy, a, b) && Less(sortBy, b, a))
  {
  }

  /** On consistently ordered tasks, "not before" is transitive, so the
      comparison is a strict weak order there. */
  lemma NotLessTransitive(sortBy: SortType, a: Task, b: Task, c: Task)
    requires sortBy != SortPriority
             || (IsPriorityConstant(a.priority) && IsPriorityConstant(b.priority)
                 && IsPriorityConstant(c.priority))
    ensures !Less(sortBy, a, b) && !Less(sortBy, b, c) ==> !Less(sortBy, a, c)
  {
  }

  /** With a priority outside the three constants the comparison is not a
      strict weak order: an unknown priority ties with two high tasks that
      are ordered against each other, so no arrangement is guaranteed. */
  lemma UnknownPriorityBreaksOrder()
    ensures var a := Task("a", "", false, 1, PriorityHigh, 0);
            var b := Task("b", "", false, 2, "urgent", 0);
            var c := Task("c", "", false, 3, PriorityHigh, 0);
            !Less(SortPriority, a, b) && !Less(SortPriority, b, a)
            && !Less(SortPriority, b, c) && !Less(SortPriority, c, b)
            && Less(SortPriority, c, a)
  {
  }

  /** Newest first. */
  predicate NewestFirst(s: seq<Task>)
  {
    forall p, q :: 0 <= p < q < |s| ==> s[p].createdAt >= s[q].createdAt
  }

  /** High before medium before low, newest first within one priority. */
  predicate ByPriorityThenNewest(s: seq<Task>)
  {
    forall p, q :: 0 <= p < q < |s| ==>
      Rank(s[p].priority) <= Rank(s[q].priority)
      && (s[p].priority == s[q].priority ==> s[p].createdAt >= s[q].createdAt)
  }

  /** `sorted` is `tasks` arranged as the service's sort arranges them: a
      permutation; the list itself for an unknown key; newest first for
      `date`; by priority and then newest first for `priority` when every
      priority is one of the constants. */
  predicate IsSortOf(sortBy: SortType, sorted: seq<Task>, tasks: seq<Task>)
  {
    multiset(sorted) == multiset(tasks)
    && (!IsSortConstant(sortBy) ==> sorted == tasks)
    && (sortBy == SortDate ==> NewestFirst(sorted))
    && (sortBy == SortPriority && Ranked(sortBy, tasks) ==> ByPriorityThenNewest(sorted))
  }

  /** What `Ordered` means for each of the two keys. */
  lemma OrderedMeaning(sortBy: SortType, s: seq<Task>)
    requires Ordered(sortBy, s)
    ensures sortBy == SortDate ==> NewestFirst(s)
    ensures sortBy == SortPriority ==> ByPriorityThenNewest(s)
  {
    forall p, q | 0 <= p < q < |s|
      ensures sortBy == SortDate ==> s[p].createdAt >= s[q].createdAt
      ensures sortBy == SortPriority ==>
        Rank(s[p].priority) <= Rank(s[q].priority)
        && (s[p].priority == s[q].priority ==> s[p].createdAt >= s[q].createdAt)
    {
      assert !Less(sortBy, s[q], s[p]);
    }
  }

  /** Swapping the element at `j` with its left neighbour keeps the order
      of the others, now with `j - 1` left out. */
  lemma SwapKeepsOrderedExcept(sortBy: SortType, s: seq<Task>, n: int, j: int)
    requires 0 < j < n <= |s|
    requires OrderedExcept(sortBy, s, n, j)
    ensures OrderedExcept(sortBy, s[j - 1 := s[j]][j := s[j - 1]], n, j - 1)
  {
    var t := s[j - 1 := s[j]][j := s[j - 1]];
    forall p, q | 0 <= p < q < n && p != j - 1 && q != j - 1
      ensures !Less(sortBy, t[q], t[p])
    {
      var p' := if p == j then j - 1 else p;
      var q' := if q == j then j - 1 else q;
      assert t[p] == s[p'] && t[q] == s[q'];
    }
  }

  /** The element at `j`, not before its left neighbour and with nothing
      to its right before it, completes the order of the first `n`. */
  lemma SettledCompletesOrder(sortBy: SortType, s: seq<Task>, n: int, j: int)
    requires 0 <= j < n <= |s|
    requires Ranked(sortBy, s)
    requires OrderedExcept(sortBy, s, n, j)
    requires forall k :: j < k < n ==> !Less(sortBy, s[k], s[j])
    requires j == 0 || !Less(sortBy, s[j], s[j - 1])
    ensures OrderedExcept(sortBy, s, n, -1)
  {
    forall p | 0 <= p < j - 1
      ensures !Less(sortBy, s[j], s[p])
    {
      assert s[j] in s && s[j - 1] in s && s[p] in s;
      NotLessTransitive(sortBy, s[j], s[j - 1], s[p]);
    }
  }

  /** A sequence holds the same tasks as any permutation of it, so the
      comparison is consistent on both or on neither. */
  lemma RankedPermutation(sortBy: SortType, s: seq<Task>, t: seq<Task>)
    requires multiset(s) == multiset(t)
    ensures Ranked(sortBy, s) <==> Ranked(sortBy, t)
  {
    assert forall x :: x in s <==> x in multiset(s);
    assert forall x :: x in t <==> x in multiset(t);
  }

  /** Exchanging two neighbours permutes a sequence. */
  lemma SwapPermutes(s: seq<Task>, j: int)
    requires 0 < j < |s|
    ensures multiset(s[j - 1 := s[j]][j := s[j - 1]]) == multiset(s)
  {
  }

  /** One step of insertion: moves the element at `i` left past every
      element it comes before, exchanging neighbours, so that the first
      `i + 1` are in order when the first `i` were. */
  method SinkLast(a: array<Task>, sortBy: SortType, i: nat, ghost ranked: bool)
    requires i < a.Length
    requires ranked ==> Ranked(sortBy, a[..]) && OrderedExcept(sortBy, a[..], i, -1)
    modifies a
    ensures multiset(a[..]) == multiset(old(a[..]))
    ensures ranked ==> Ranked(sortBy, a[..]) && OrderedExcept(sortBy, a[..], i + 1, -1)
  {
    var j := i;
    while j > 0 && Less(sortBy, a[j], a[j - 1])
      invariant 0 <= j <= i
      invariant multiset(a[..]) == multiset(old(a[..]))
      invariant ranked ==> OrderedExcept(sortBy, a[..], i + 1, j)
      invariant forall k :: j < k <= i ==> !Less(sortBy, a[k], a[j])
    {
      ghost var s := a[..];
      a[j - 1], a[j] := a[j], a[j - 1];
      assert a[..] == s[j - 1 := s[j]][j := s[j - 1]];
      SwapPermutes(s, j);
      if ranked {
        SwapKeepsOrderedExcept(sortBy, s, i + 1, j);
      }
      j := j - 1;
    }
    if ranked {
      RankedPermutation(sortBy, old(a[..]), a[..]);
      SettledCompletesOrder(sortBy, a[..], i + 1, j);
    }
  }

  /** Sorts `a` in place by insertion with the service's comparison. The
      result is always a permutation, and ordered when the comparison is
      consistent on the elements. */
  method InsertionSort(a: array<Task>, sortBy: SortType)
    modifies a
    ensures multiset(a[..]) == multiset(old(a[..]))
    ensures Ranked(sortBy, old(a[..])) ==> Ordered(sortBy, a[..])
  {
    ghost var ranked := Ranked(sortBy, a[..]);
    var i := 0;
    while i < a.Length
      invariant 0 <= i <= a.Length
      invariant multiset(a[..]) == multiset(old(a[..]))
      invariant ranked ==> Ranked(sortBy, a[..]) && OrderedExcept(sortBy, a[..], i, -1)
    {
      SinkLast(a, sortBy, i, ranked);
      i := i + 1;
    }
  }

  // ---------------------------------------------------------------------
  // The service
  // ---------------------------------------------------------------------

  class TaskService {
    const repo: TaskRepository

    constructor (repo: TaskRepository)
      ensures this.repo == repo
    {
      this.repo := repo;
    }

    /** Every stored task, or the repository's read error. */
    method GetAllTasks() returns (r: Result<seq<Task>, Error>)
      ensures r.Failure? <==> repo.getFails
      ensures r.Failure? ==> r.error == ReadFailure
      ensures r.Success? ==> r.value == repo.stored
    {
      r := repo.GetAll();
    }

    /** Appends a new open task named `text` to the stored list and saves
        it. A read error is reported before anything is saved; a write error
        is reported with the list as it was. */
    method AddTask(text: string, priority: Priority, dueDate: int, id: string, now: int)
      returns (r: Result<Task, Error>)
      modifies repo`stored, repo`saveCalls
      ensures repo.getFails ==>
        r == Failure(ReadFailure) && repo.stored == old(repo.stored)
        && repo.saveCalls == old(repo.saveCalls)
      ensures !repo.getFails ==> repo.saveCalls == old(repo.saveCalls) + 1
      ensures !repo.getFails && repo.saveFails ==>
        r == Failure(WriteFailure) && repo.stored == old(repo.stored)
      ensures !repo.getFails && !repo.saveFails ==>
        var t := Task(id, text, false, now, priority, dueDate);
        r == Success(t) && repo.stored == old(repo.stored) + [t]
    {
      var read := repo.GetAll();
      if read.Failure? {
        return Failure(read.error);
      }
      var newTask := Task(id, text, false, now, priority, dueDate);
      var tasks := read.value + [newTask];
      var saved := repo.SaveAll(tasks);
      if saved.Fail? {
        return Failure(saved.error);
      }
      r := Success(newTask);
    }

    /** Replaces the first stored task with `task`'s id by `task` and saves
        the list; the list is saved (unchanged) even when no task has that
        id. */
    method UpdateTask(task: Task) returns (r: Outcome<Error>)
      modifies repo`stored, repo`saveCalls
      ensures repo.getFails ==>
        r == Fail(ReadFailure) && repo.stored == old(repo.stored)
        && repo.saveCalls == old(repo.saveCalls)
      ensures !repo.getFails ==>
        repo.saveCalls == old(repo.saveCalls) + 1
        && r == (if repo.saveFails then Fail(WriteFailure) else Pass)
        && repo.stored == if repo.saveFails then old(repo.stored)
                          else ReplaceFirst(old(repo.stored), task)
    {
      var read := repo.GetAll();
      if read.Failure? {
        return Fail(read.error);
      }
      var tasks := read.value;
      var i := 0;
      while i < |tasks|
        invariant 0 <= i <= |tasks|
        invariant tasks == read.value
        invariant forall k :: 0 <= k < i ==> tasks[k].id != task.id
      {
        if tasks[i].id == task.id {
          tasks := tasks[i := task];
          break;
        }
        i := i + 1;
      }
      assert tasks == ReplaceFirst(read.value, task);
      r := repo.SaveAll(tasks);
    }

    /** Removes the first stored task whose id is `id` and saves the list;
        the list is saved (unchanged) even when no task has that id. */
    method DeleteTask(id: string) returns (r: Outcome<Error>)
      modifies repo`stored, repo`saveCalls
      ensures repo.getFails ==>
        r == Fail(ReadFailure) && repo.stored == old(repo.stored)
        && repo.saveCalls == old(repo.saveCalls)
      ensures !repo.getFails ==>
        repo.saveCalls == old(repo.saveCalls) + 1
        && r == (if repo.saveFails then Fail(WriteFailure) else Pass)
        && repo.stored == if repo.saveFails then old(repo.stored)
                          else RemoveFirst(old(repo.stored), id)
    {
      var read := repo.GetAll();
      if read.Failure? {
        return Fail(read.error);
      }
      var tasks := read.value;
      var i := 0;
      while i < |tasks|
        invariant 0 <= i <= |tasks|
        invariant tasks == read.value
        invariant forall k :: 0 <= k < i ==> tasks[k].id != id
      {
        if tasks[i].id == id {
          tasks := tasks[..i] + tasks[i + 1..];
          break;
        }
        i := i + 1;
      }
      assert tasks == RemoveFirst(read.value, id);
      r := repo.SaveAll(tasks);
    }

    /** The tasks of `tasks` that `filter` keeps, in order. */
    method FilterTasks(tasks: seq<Task>, filter: FilterType, c: Clock)
      returns (filtered: seq<Task>)
      ensures filtered == Filtered(tasks, filter, c)
    {
      filtered := [];
      var i := 0;
      while i < |tasks|
        invariant 0 <= i <= |tasks|
        invariant filtered == Filtered(tasks[..i], filter, c)
      {
        assert tasks[..i + 1] == tasks[..i] + [tasks[i]];
        FilteredSnoc(tasks[..i], tasks[i], filter, c);
        if Keeps(filter, c, tasks[i]) {
          filtered := filtered + [tasks[i]];
        }
        i := i + 1;
      }
      assert tasks[..i] == tasks;
    }

    /** A sorted copy of `tasks`; the argument is left as it is. */
    method SortTasks(tasks: seq<Task>, sortBy: SortType) returns (sorted: seq<Task>)
      ensures IsSortOf(sortBy, sorted, tasks)
    {
      var a := new Task[|tasks|](i requires 0 <= i < |tasks| => tasks[i]);
      assert a[..] == tasks;
      if sortBy == SortDate || sortBy == SortPriority {
        InsertionSort(a, sortBy);
        if Ranked(sortBy, tasks) {
          OrderedMeaning(sortBy, a[..]);
        }
      }
      sorted := a[..];
    }
  }
}
