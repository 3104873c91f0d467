/** The pure logic of the to-do list front end (`TodoApp` in
    frontend/src/main.js): the status machine behind toggling and starting a
    task, the priority mapping of the creation form, the priority and status
    badges, string trimming, the six view filters, the four sort orders and
    the end-of-week boundary. The stateful part of `TodoApp` is in module
    Frontend. */
module TaskView {
  import opened Common

  /** A status string other than the three the front end knows. */
  type UnknownStatus = s: string | s != "not_started" && s != "in_progress" && s != "done"
    witness "archived"

  /** A task status as the front end reads it. A status string other than
      the three the front end knows is kept as `Other`. */
  datatype Status = NotStarted | InProgress | Done | Other(name: UnknownStatus)

  /** The front end's task record. Instants (`createdAt`, `deadline`) are
      milliseconds since the epoch; `deadline` is absent when the task has
      none. */
  datatype Task = Task(
    id: string,
    title: string,
    body: string,
    priority: int,
    status: Status,
    createdAt: int,
    deadline: Option<int>)

  // ---------------------------------------------------------------------
  // Status machine

  /** The status that toggling a task asks the store for. */
  function NextStatus(s: Status): (r: Status)
    ensures r != InProgress
    ensures r == NotStarted <==> s == Done
    ensures s != Done ==> r == Done
  {
    if s == Done then NotStarted
    else if s == InProgress then Done
    else Done
  }

  /** The two user actions that change a status: the checkbox and the
      "start" button. */
  datatype Action = Toggle | Start

  function Step(s: Status, a: Action): Status
  {
    match a
    case Toggle => NextStatus(s)
    case Start => InProgress
  }

  /** The status after performing `actions` in order from `s`. */
  function Run(s: Status, actions: seq<Action>): Status
    decreases |actions|
  {
    if actions == [] then s else Run(Step(s, actions[0]), actions[1..])
  }

  /** Only the start action leads to `InProgress`: whenever a non-empty run
      of actions ends in `InProgress`, its last action was a start. */
  lemma {:induction false} InProgressOnlyByStart(s: Status, actions: seq<Action>)
    requires actions != []
    requires Run(s, actions) == InProgress
    ensures actions[|actions| - 1] == Start
    decreases |actions|
  {
    if |actions| > 1 {
      InProgressOnlyByStart(Step(s, actions[0]), actions[1..]);
    }
  }

  /** Toggling twice restores exactly the statuses done and not started. */
  lemma ToggleTwice(s: Status)
    ensures NextStatus(NextStatus(s)) == s <==> s == Done || s == NotStarted
  {
  }

  /** The transitions the task list offers (frontend/src/main.js:340-351):
      the start button is drawn for a not-started task only, and the
      checkbox, disabled for a not-started task, toggles an in-progress task
      to done and a done task back to not started. */
  predicate IntendedEdge(from: Status, a: Action, to: Status)
  {
    || (from == NotStarted && a == Start && to == InProgress)
    || (from == InProgress && a == Toggle && to == Done)
    || (from == Done && a == Toggle && to == NotStarted)
  }

  /** On every control the task list draws as enabled, the code takes
      exactly the offered transition: toggle from in progress and from done,
      start from not started (neither method itself checks the current
      status). */
  lemma StepFollowsIntendedTable(s: Status, a: Action)
    requires (a == Toggle && (s == InProgress || s == Done)) || (a == Start && s == NotStarted)
    ensures IntendedEdge(s, a, Step(s, a))
    ensures forall t :: IntendedEdge(s, a, t) ==> t == Step(s, a)
  {
  }

  // ---------------------------------------------------------------------
  // Priorities and badges

  /** The priority number `addTask` stores for the value of the priority
      selector: low 1, medium 2, high 3, and 2 for anything else. */
  function PriorityOfChoice(choice: string): (p: int)
    ensures 1 <= p <= 3
    ensures p == 1 <==> choice == "low"
    ensures p == 3 <==> choice == "high"
  {
    if choice == "low" then 1
    else if choice == "medium" then 2
    else if choice == "high" then 3
    else 2
  }

  /** The CSS class of a priority badge. */
  function PriorityClass(p: int): (c: string)
    ensures c == "high" || c == "medium" || c == "low"
  {
    if p >= 3 then "high"
    else if p >= 2 then "medium"
    else "low"
  }

  /** The text of a priority badge. */
  function PriorityLabel(p: int): (l: string)
    ensures l == "Высокий" || l == "Средний" || l == "Низкий"
  {
    if p >= 3 then "Высокий"
    else if p >= 2 then "Средний"
    else "Низкий"
  }

  /** The badge shows the level chosen in the creation form: low and high
      as chosen, and medium for every other choice. */
  lemma BadgeShowsChosenPriority(choice: string)
    ensures PriorityClass(PriorityOfChoice(choice))
            == if choice == "low" || choice == "high" then choice else "medium"
  {
  }

  /** Badge classes are monotone in the priority number, and the badge text
      always goes with the badge class. */
  lemma BadgeTiers(p: int, q: int)
    requires p <= q
    ensures PriorityClass(q) == "low" ==> PriorityClass(p) == "low"
    ensures PriorityClass(p) == "high" ==> PriorityClass(q) == "high"
    ensures (PriorityLabel(p) == "Высокий") == (PriorityClass(p) == "high")
    ensures (PriorityLabel(p) == "Низкий") == (PriorityClass(p) == "low")
  {
  }

  /** The label of a status; a status the front end does not know is shown
      as its own name. */
  function StatusLabel(s: Status): (l: string)
    ensures s.Other? ==> l == s.name
  {
    match s
    case NotStarted => "Не начата"
    case InProgress => "В процессе"
    case Done => "Завершена"
    case Other(name) => name
  }

  // ---------------------------------------------------------------------
  // Trimming (JavaScript's String.prototype.trim)

  /** The white space and line terminators that JavaScript's trim removes. */
  predicate IsJsSpace(c: char)
  {
    || c == '\t' || c == '\n' || c == '\U{000B}' || c == '\U{000C}' || c == '\r'
    || c == ' ' || c == '\U{00A0}' || c == '\U{1680}'
    || ('\U{2000}' <= c <= '\U{200A}')
    || c == '\U{2028}' || c == '\U{2029}' || c == '\U{202F}' || c == '\U{205F}'
    || c == '\U{3000}' || c == '\U{FEFF}'
  }

  /** The number of white-space characters at the start of `s`. */
  function LeadingSpace(s: string): (n: nat)
    ensures n <= |s|
    ensures forall k :: 0 <= k < n ==> IsJsSpace(s[k])
    ensures n < |s| ==> !IsJsSpace(s[n])
  {
    if s != [] && IsJsSpace(s[0]) then 1 + LeadingSpace(s[1..]) else 0
  }

  /** The end of `s[from..]` once its trailing white space is cut. */
  function TrailingCut(s: string, from: nat): (m: nat)
    requires from <= |s|
    ensures from <= m <= |s|
    ensures forall k :: m <= k < |s| ==> IsJsSpace(s[k])
    ensures m > from ==> !IsJsSpace(s[m - 1])
    decreases |s|
  {
    if |s| > from && IsJsSpace(s[|s| - 1]) then TrailingCut(s[..|s| - 1], from) else |s|
  }

  /** `s` without leading and trailing white space: a slice of `s` that
      cuts off white space only and neither starts nor ends with white
      space, and empty exactly when `s` consists of white space only. */
  function Trim(s: string): (r: string)
    ensures exists i, j ::
      && 0 <= i <= j <= |s| && r == s[i..j]
      && forall k :: 0 <= k < i || j <= k < |s| ==> IsJsSpace(s[k])
    ensures r != [] ==> !IsJsSpace(r[0]) && !IsJsSpace(r[|r| - 1])
    ensures r == [] <==> forall k :: 0 <= k < |s| ==> IsJsSpace(s[k])
  {
    var n := LeadingSpace(s);
    var m := TrailingCut(s, n);
    assert n < |s| ==> m > n;
    assert forall k :: 0 <= k < n || m <= k < |s| ==> IsJsSpace(s[k]);
    s[n..m]
  }

  // ---------------------------------------------------------------------
  // Filters

  /** The instants `renderTasks` computes from the current time: the
      current instant, the start of today, the start of tomorrow and the
      last millisecond of the week. */
  datatype Clock = Clock(now: int, startOfToday: int, endOfToday: int, endOfWeek: int)

  /** A task is overdue when it has a deadline earlier than `now` and is
      not done. */
  predicate IsOverdue(t: Task, now: int)
    ensures t.deadline.None? || t.status == Done ==> !IsOverdue(t, now)
    ensures t.deadline.Some? && t.status != Done ==> (IsOverdue(t, now) <==> t.deadline.value < now)
  {
    t.deadline.Some? && t.status != Done && t.deadline.value < now
  }

  /** The filter names with a predicate of their own; every other name,
      `all` included, shows every task. */
  predicate IsNamedFilter(filter: string)
  {
    filter == "active" || filter == "completed" || filter == "today"
    || filter == "week" || filter == "overdue"
  }

  /** Whether the view filter `filter` keeps task `t`. */
  predicate Matches(filter: string, c: Clock, t: Task)
    ensures !IsNamedFilter(filter) ==> Matches(filter, c, t)
    ensures filter == "active" ==> (Matches(filter, c, t) <==> t.status == InProgress)
    ensures filter == "completed" ==> (Matches(filter, c, t) <==> t.status == Done)
    ensures (filter == "today" || filter == "week" || filter == "overdue") && Matches(filter, c, t) ==>
      t.deadline.Some?
    ensures filter == "overdue" && Matches(filter, c, t) ==> t.status != Done
  {
    if filter == "active" then t.status == InProgress
    else if filter == "completed" then t.status == Done
    else if filter == "today" then
      t.deadline.Some? && c.startOfToday <= t.deadline.value < c.endOfToday
    else if filter == "week" then
      t.deadline.Some? && c.startOfToday <= t.deadline.value <= c.endOfWeek
    else if filter == "overdue" then
      t.deadline.Some? && t.deadline.value < c.now && t.status != Done
    else true
  }

  /** The tasks the view filter keeps: an order-preserving subsequence of
      `tasks` holding every matching task as many times as `tasks` does, and
      nothing else. */
  function FilterView(tasks: seq<Task>, filter: string, c: Clock): (r: seq<Task>)
    ensures Subseq(r, tasks)
    ensures forall i :: 0 <= i < |r| ==> Matches(filter, c, r[i])
    ensures forall t :: multiset(r)[t] == if Matches(filter, c, t) then multiset(tasks)[t] else 0
  {
    Select(tasks, (t: Task) => Matches(filter, c, t))
  }

  /** `all` and every name without a predicate of its own show the list
      as it is. */
  lemma UnnamedFilterIsIdentity(tasks: seq<Task>, filter: string, c: Clock)
    requires !IsNamedFilter(filter)
    ensures FilterView(tasks, filter, c) == tasks
  {
    SelectAll(tasks, (t: Task) => Matches(filter, c, t));
  }

  /** The overdue filter keeps exactly the tasks the overdue marker marks. */
  lemma OverdueFilterIsOverdueMarker(c: Clock, t: Task)
    ensures Matches("overdue", c, t) <==> IsOverdue(t, c.now)
  {
  }

  // ---------------------------------------------------------------------
  // Day boundaries

  /** A day of the week as JavaScript's getDay numbers it: 0 is Sunday. */
  type Weekday = d: int | 0 <= d <= 6

  const DayMs: int := 86_400_000

  /** 23:59:59.999 as milliseconds after midnight. */
  const LastMsOfDay: int := 23 * 3_600_000 + 59 * 60_000 + 59 * 1_000 + 999

  /** How many days ahead `renderTasks` puts the end of the week: the next
      Sunday strictly after today, so a Sunday points a full week ahead. */
  function DaysToWeekEnd(weekday: Weekday): (r: int)
    ensures 1 <= r <= 7
    ensures (weekday + r) % 7 == 0
    ensures weekday == 0 ==> r == 7
  {
    7 - weekday
  }

  /** The end of the week on a calendar without daylight-saving shifts:
      23:59:59.999 on the day `DaysToWeekEnd(weekday)` days after the day
      that starts at `startOfToday`. */
  function WeekEnd(startOfToday: int, weekday: Weekday): (r: int)
    ensures startOfToday + 2 * DayMs - 1 <= r <= startOfToday + 8 * DayMs - 1
    ensures (r - startOfToday) % DayMs == LastMsOfDay
    ensures (weekday + (r - startOfToday) / DayMs) % 7 == 0
  {
    startOfToday + DaysToWeekEnd(weekday) * DayMs + LastMsOfDay
  }

  /** The instants `renderTasks` derives from the current time, on a
      calendar without daylight-saving shifts. */
  function ClockAt(now: int, startOfToday: int, weekday: Weekday): (c: Clock)
    ensures c.now == now && c.startOfToday == startOfToday
    ensures c.endOfToday == startOfToday + DayMs
    ensures c.endOfToday <= c.endOfWeek && c.endOfWeek == WeekEnd(startOfToday, weekday)
  {
    Clock(now, startOfToday, startOfToday + DayMs, WeekEnd(startOfToday, weekday))
  }

  /** Whatever the weekday, every task due today is also due this week. */
  lemma TodayWithinWeek(now: int, startOfToday: int, weekday: Weekday, t: Task)
    ensures Matches("today", ClockAt(now, startOfToday, weekday), t)
            ==> Matches("week", ClockAt(now, startOfToday, weekday), t)
  {
  }

  /** A task due at 10:00 tomorrow is shown under "week" but not under
      "today", on every day of the week. */
  lemma TomorrowMorningIsThisWeek(now: int, startOfToday: int, weekday: Weekday, t: Task)
    requires t.deadline == Some(startOfToday + DayMs + 10 * 3_600_000)
    ensures !Matches("today", ClockAt(now, startOfToday, weekday), t)
    ensures Matches("week", ClockAt(now, startOfToday, weekday), t)
  {
  }

  // ---------------------------------------------------------------------
  // Sorting

  /** The four orders of the sort selector. */
  datatype SortOrder = PriorityAsc | PriorityDesc | DateAsc | DateDesc

  /** The order for a selector value; `date-desc` and every unknown value
      (the initial `date` included) sort newest first. */
  function SortOrderOf(key: string): (o: SortOrder)
    ensures o == PriorityAsc <==> key == "priority-asc"
    ensures o == PriorityDesc <==> key == "priority-desc"
    ensures o == DateAsc <==> key == "date-asc"
  {
    if key == "priority-asc" then PriorityAsc
    else if key == "priority-desc" then PriorityDesc
    else if key == "date-asc" then DateAsc
    else DateDesc
  }

  /** The number the comparator of order `o` sorts ascending by. */
  function SortKey(o: SortOrder, t: Task): int
  {
    match o
    case PriorityAsc => t.priority
    case PriorityDesc => -t.priority
    case DateAsc => t.createdAt
    case DateDesc => -t.createdAt
  }

  predicate SortedBy(o: SortOrder, s: seq<Task>)
  {
    forall i, j :: 0 <= i < j < |s| ==> SortKey(o, s[i]) <= SortKey(o, s[j])
  }

  /** Inserts `t` into a sorted list before the first element whose key is
      not smaller, so that equal keys keep their input order. */
  function Insert(o: SortOrder, t: Task, s: seq<Task>): (r: seq<Task>)
    requires SortedBy(o, s)
    ensures SortedBy(o, r)
    ensures multiset(r) == multiset(s) + multiset{t}
    ensures r[0] == t || (s != [] && r[0] == s[0])
    decreases |s|
  {
    if s == [] then [t]
    else if SortKey(o, t) <= SortKey(o, s[0]) then
      SortedCons(o, t, s);
      [t] + s
    else
      var rest := Insert(o, t, s[1..]);
      assert s == [s[0]] + s[1..];
      SortedCons(o, s[0], rest);
      [s[0]] + rest
  }

  lemma SortedCons(o: SortOrder, x: Task, s: seq<Task>)
    requires SortedBy(o, s)
    requires s != [] ==> SortKey(o, x) <= SortKey(o, s[0])
    ensures SortedBy(o, [x] + s)
  {
    var r := [x] + s;
    forall i, j | 0 <= i < j < |r|
      ensures SortKey(o, r[i]) <= SortKey(o, r[j])
    {
      if i == 0 {
        assert r[j] == s[j - 1];
      } else {
        assert r[i] == s[i - 1] && r[j] == s[j - 1];
      }
    }
  }

  /** A stable sort of `s` on the key of order `o`, as JavaScript's
      Array.prototype.sort does with the comparator of `renderTasks`. */
  function SortView(o: SortOrder, s: seq<Task>): (r: seq<Task>)
    ensures SortedBy(o, r)
    ensures multiset(r) == multiset(s)
    decreases |s|
  {
    if s == [] then []
    else
      assert s == [s[0]] + s[1..];
      Insert(o, s[0], SortView(o, s[1..]))
  }

  /** The sorted list for a selector value: a permutation of `tasks`,
      ordered by priority or by creation time as the value says. */
  function ApplySort(key: string, tasks: seq<Task>): (r: seq<Task>)
    ensures multiset(r) == multiset(tasks)
    ensures key == "priority-asc" ==>
      forall i, j :: 0 <= i < j < |r| ==> r[i].priority <= r[j].priority
    ensures key == "priority-desc" ==>
      forall i, j :: 0 <= i < j < |r| ==> r[i].priority >= r[j].priority
    ensures key == "date-asc" ==>
      forall i, j :: 0 <= i < j < |r| ==> r[i].createdAt <= r[j].createdAt
    ensures key != "priority-asc" && key != "priority-desc" && key != "date-asc" ==>
      forall i, j :: 0 <= i < j < |r| ==> r[i].createdAt >= r[j].createdAt
  {
    var o := SortOrderOf(key);
    var r := SortView(o, tasks);
    assert forall i, j :: 0 <= i < j < |r| ==> SortKey(o, r[i]) <= SortKey(o, r[j]);
    r
  }

  /** Tasks created at 1, 3 and 2 come out newest first: 3, 2, 1. */
  lemma NewestFirstExample(a: Task, b: Task, c: Task)
    requires a.createdAt == 1 && b.createdAt == 3 && c.createdAt == 2
    ensures ApplySort("date-desc", [a, b, c]) == [b, c, a]
  {
    assert [a, b, c][1..] == [b, c];
    assert [b, c][1..] == [c];
    assert SortView(DateDesc, [c]) == [c];
    assert SortView(DateDesc, [b, c]) == [b, c];
    assert Insert(DateDesc, a, [c]) == [c, a];
    assert Insert(DateDesc, a, [b, c]) == [b, c, a] by {
      assert [b, c][1..] == [c];
    }
  }

  /** What `renderTasks` shows: the filtered tasks, sorted. Its elements
      are exactly the tasks of the list that the filter keeps, each as often
      as it occurs there. */
  function Render(tasks: seq<Task>, filter: string, sortKey: string, c: Clock): (r: seq<Task>)
    ensures r == ApplySort(sortKey, FilterView(tasks, filter, c))
    ensures multiset(r) == multiset(FilterView(tasks, filter, c))
    ensures forall t :: multiset(r)[t] == if Matches(filter, c, t) then multiset(tasks)[t] else 0
    ensures forall t :: t in r <==> t in tasks && Matches(filter, c, t)
  {
    var r := ApplySort(sortKey, FilterView(tasks, filter, c));
    assert forall t :: t in r <==> multiset(r)[t] > 0;
    r
  }

  // ---------------------------------------------------------------------
  // Lookup

  /** The first task with id `id` (JavaScript's Array.prototype.find). */
  function FindById(tasks: seq<Task>, id: string): (r: Option<Task>)
    ensures r.None? <==> forall i :: 0 <= i < |tasks| ==> tasks[i].id != id
    ensures r.Some? ==> r.value.id == id
    ensures r.Some? ==> exists i :: 0 <= i < |tasks| && tasks[i] == r.value
                                     && forall k :: 0 <= k < i ==> tasks[k].id != id
  {
    var i := FirstIndex(tasks, (t: Task) => t.id == id);
    if i < |tasks| then Some(tasks[i]) else None
  }

  // ---------------------------------------------------------------------
  // Theme

  /** The theme after pressing the theme button: light becomes dark, and
      every other value (dark included) becomes light. */
  function NextTheme(theme: string): (r: string)
    ensures r == "light" || r == "dark"
    ensures r == "dark" <==> theme == "light"
  {
    if theme == "light" then "dark" else "light"
  }

  /** Two presses restore the theme exactly when it was light or dark. */
  lemma ThemeToggleTwice(theme: string)
    ensures NextTheme(NextTheme(theme)) == theme <==> theme == "light" || theme == "dark"
  {
  }

  /** The theme `loadTheme` restores from the stored value: the stored
      value when there is a non-empty one, and light otherwise. */
  function RestoredTheme(saved: Option<string>): (r: string)
    ensures r != ""
    ensures saved.Some? && saved.value != "" ==> r == saved.value
    ensures saved.None? || saved.value == "" ==> r == "light"
  {
    if saved.Some? && saved.value != "" then saved.value else "light"
  }
}
