/** The backend's shared vocabulary (backend/internal/app/core): the filter,
    sort and priority names, which Go declares as string types with named
    constants, and the errors the task operations report. */
module Core {

  type FilterType = string

  const FilterAll: FilterType := "all"
  const FilterActive: FilterType := "active"
  const FilterCompleted: FilterType := "completed"
  const FilterToday: FilterType := "today"
  const FilterWeek: FilterType := "week"
  const FilterOverdue: FilterType := "overdue"

  /** The six declared filter constants. */
  predicate IsFilterConstant(f: FilterType)
  {
    f == FilterAll || f == FilterActive || f == FilterCompleted
    || f == FilterToday || f == FilterWeek || f == FilterOverdue
  }

  type SortType = string

  const SortDate: SortType := "date"
  const SortPriority: SortType := "priority"

  predicate IsSortConstant(s: SortType)
  {
    s == SortDate || s == SortPriority
  }

  type Priority = string

  const PriorityLow: Priority := "low"
  const PriorityMedium: Priority := "medium"
  const PriorityHigh: Priority := "high"

  /** The three declared priority constants. A task may still carry any
      other string as its priority. */
  predicate IsPriorityConstant(p: Priority)
  {
    p == PriorityLow || p == PriorityMedium || p == PriorityHigh
  }

  /** The errors of the task operations. `Storage` stands for whatever
      error the repository reports (a failed read, a malformed file, a
      failed write), carrying its message. */
  datatype Error =
    | ErrDBConn
    | ErrTaskNotFound
    | ErrEmptyTaskText
    | Storage(message: string)

  /** The message of an error. */
  function Message(e: Error): (m: string)
    ensures e.Storage? ==> m == e.message
    ensures e == ErrDBConn ==> m == "db connection failure"
    ensures e == ErrTaskNotFound ==> m == "task is not exist"
    ensures e == ErrEmptyTaskText ==> m == "task is empty"
  {
    match e
    case ErrDBConn => "db connection failure"
    case ErrTaskNotFound => "task is not exist"
    case ErrEmptyTaskText => "task is empty"
    case Storage(message) => message
  }
}

/** The backend's task record (backend/internal/domain/models). Instants are
    nanoseconds since the Unix epoch; Go's zero time.Time, which a task
    without a due date carries, is `ZeroTime`. */
module Models {
  import opened Core

  datatype Task = Task(
    id: string,
    text: string,
    completed: bool,
    createdAt: int,
    priority: Priority,
    dueDate: int)

  /** January 1 of year 1, 00:00 UTC (Go's zero time), in nanoseconds since
      the Unix epoch. */
  const ZeroTime: int := -62_135_596_800 * 1_000_000_000
}
