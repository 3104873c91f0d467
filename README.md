# To-do list: a Dafny model of the task view, the task service and the handlers

The application is a desktop to-do list with a JavaScript front end and a Go
backend. This project models three parts of it and proves properties of them.

- **The front end's `TodoApp`** (frontend/src/main.js) is in two modules.
  - `TaskView` holds the pure parts:
    - the status machine behind toggling and starting a task;
    - the priority chosen in the creation form;
    - the priority and status badges;
    - JavaScript's `trim`;
    - the six view filters and the four sort orders of `renderTasks`;
    - the end of the week;
    - lookup by id;
    - the light/dark theme.
  - `Frontend` holds the stateful part:
    - the class `TodoApp` with the fields the source updates, plus the creation form's inputs and the alerts shown;
    - a `Bridge` class standing for the `window.go.main.App` store; it records every call it receives and fails the operations named in `failing`;
    - a `LocalStorage` class that keeps the theme.
- **The backend service** (backend/internal/app/service/task_service.go)
  is the class `Service.TaskService`.
  - It works over `Repository.TaskRepository`, a list held in memory with two flags that make reading or writing fail.
  - Adding appends to the loaded list and saves it.
  - Replacing and deleting are loops over the loaded list followed by a save.
  - Filtering is an appending loop.
  - Sorting copies the list into an array and sorts it in place.
- **The backend handlers** (backend/internal/adapter/handler/handler.go)
  are the class `Handler.TaskHandlers`, together with the three string parsers.
- The Go vocabulary is in modules `Core` and `Models`:
  - the filter, sort and priority names (backend/internal/app/core/params.go);
  - the errors (backend/internal/app/core/errors.go);
  - the task record (backend/internal/domain/models/models.go).
- Generic sequence helpers are in `Common`:
  - the option and result types;
  - the subsequence relation;
  - order-preserving selection;
  - first index.

Clocks, random identifiers and the current instant are parameters:
- the front end's `Clock` carries `now` and the start of today, of tomorrow and the end of the week;
- the backend's `Clock` carries `now`, today's and tomorrow's midnight and the midnight a week after today's;
- `AddTask` takes the identifier and the creation instant.

Where the intended behaviour and the code differ, the model follows the code:
- `deleteTask` clears the staged task as soon as the store has deleted it, even when the reload that follows fails. `loadTasks` catches its own errors, so the reload never reaches `deleteTask`'s error handler.
- The end of the week on a Sunday is the following Sunday, not the same day: `7 - getDay()` is 7 on a Sunday.

## Model

| member | source | states |
|---|---|---|
| `TaskView.NextStatus` | frontend/src/main.js:156-164 | toggling never yields in-progress: it turns done into not-started and every other status into done |
| `TaskView.InProgressOnlyByStart` | frontend/src/main.js:156-164 | whenever a non-empty run of toggle/start actions ends in progress, its last action was a start |
| `TaskView.ToggleTwice` | frontend/src/main.js:156-164 | two toggles restore a status exactly when it was done or not started |
| `TaskView.StepFollowsIntendedTable` | frontend/src/main.js:340-351 | on each control the list draws as enabled (start on a not-started task, the checkbox on an in-progress or done task) the code takes exactly the transition that control offers |
| `TaskView.PriorityOfChoice` | frontend/src/main.js:97-102 | the stored priority lies in 1..3, is 1 exactly for `low` and 3 exactly for `high` |
| `TaskView.PriorityClass` | frontend/src/main.js:473-477 | the badge class is one of high, medium, low |
| `TaskView.PriorityLabel` | frontend/src/main.js:479-483 | the badge text is one of the three Russian labels |
| `TaskView.BadgeShowsChosenPriority` | frontend/src/main.js:473-477 | the badge of a created task shows the chosen low/high level, and medium for every other choice |
| `TaskView.BadgeTiers` | frontend/src/main.js:479-483 | badge classes are monotone in the priority and the label always matches the class |
| `TaskView.StatusLabel` | frontend/src/main.js:485-493 | an unknown status is shown as its own name |
| `TaskView.Trim` | frontend/src/main.js:91-93 | the result is a slice of the input that cuts off only white space and has none at either end; it is empty exactly when the input is all white space |
| `TaskView.IsOverdue` | frontend/src/main.js:466-471 | a task without a deadline or done is never overdue; otherwise it is overdue exactly when its deadline is before now |
| `TaskView.Matches` | frontend/src/main.js:252-285 | an unnamed filter keeps every task; `active` keeps exactly the in-progress and `completed` exactly the done tasks; the date filters keep only tasks with a deadline, and `overdue` never a done task |
| `TaskView.FilterView` | frontend/src/main.js:251-286 | the view is an order-preserving subsequence that holds each matching task exactly as often as the list and nothing else |
| `TaskView.UnnamedFilterIsIdentity` | frontend/src/main.js:282-285 | `all` and every unknown filter name show the list unchanged |
| `TaskView.OverdueFilterIsOverdueMarker` | frontend/src/main.js:466-471 | the overdue filter keeps exactly the tasks the overdue marker marks |
| `TaskView.DaysToWeekEnd` | frontend/src/main.js:248 | the offset to the end of the week is 1..7 days, lands on a Sunday, and is 7 on a Sunday |
| `TaskView.WeekEnd` | frontend/src/main.js:248-249 | the end of the week is 23:59:59.999 on a Sunday between tomorrow and a week ahead |
| `TaskView.ClockAt` | frontend/src/main.js:241-249 | the clock keeps the current instant and the start of today, ends today one day later, and ends the week at `WeekEnd`, never before the end of today |
| `TaskView.TodayWithinWeek` | frontend/src/main.js:258-273 | every task `today` shows is shown by `week` too, on every weekday |
| `TaskView.TomorrowMorningIsThisWeek` | frontend/src/main.js:258-273 | a task due tomorrow morning is under `week` and not under `today` |
| `TaskView.SortOrderOf` | frontend/src/main.js:297-317 | each of the three named selector values picks its own order; everything else sorts newest first |
| `TaskView.Insert` | frontend/src/main.js:296-318 | inserting into a sorted list keeps it sorted and adds exactly that task |
| `TaskView.SortView` | frontend/src/main.js:296-318 | the comparator sort yields a sorted permutation |
| `TaskView.ApplySort` | frontend/src/main.js:296-318 | the sorted view is a permutation; priority ascending/descending and date ascending/newest first as the selector says |
| `TaskView.NewestFirstExample` | frontend/src/main.js:310-317 | tasks created at 1, 3, 2 are shown as 3, 2, 1 |
| `TaskView.Render` | frontend/src/main.js:233-318 | the shown tasks are the filtered view in the selected sort order: exactly the matching tasks of the list, each as often as it occurs there |
| `TaskView.FindById` | frontend/src/main.js:148-151 | finds the first task with the id, and nothing exactly when no task has it |
| `TaskView.NextTheme` | frontend/src/main.js:218 | the new theme is light or dark, and dark exactly when the old one was light |
| `TaskView.ThemeToggleTwice` | frontend/src/main.js:217-222 | two presses restore the theme exactly when it was light or dark |
| `TaskView.RestoredTheme` | frontend/src/main.js:225-226 | a non-empty stored theme is restored; with none or an empty one stored the theme is light |
| `Frontend.Bridge.GetTasks` | frontend/src/main.js:82 | the call is recorded and returns the stored list or the failure message |
| `Frontend.Bridge.CreateTask` | frontend/src/main.js:123 | the call is recorded and, unless it fails, appends the task to the store |
| `Frontend.Bridge.UpdateTaskStatus` | frontend/src/main.js:166 | the call is recorded and, unless it fails, sets the status of the tasks with that id |
| `Frontend.Bridge.DeleteTask` | frontend/src/main.js:196 | the call is recorded and, unless it fails, removes the tasks with that id |
| `Frontend.LocalStorage.GetItem` | frontend/src/main.js:225 | returns the stored value of the key, or nothing |
| `Frontend.LocalStorage.SetItem` | frontend/src/main.js:221 | the key maps to the new value and nothing else changes |
| `Frontend.OrUnknown` | frontend/src/main.js:201 | the delete alert shows the error's message, or `Unknown error` when it is empty |
| `Frontend.TodoApp.constructor` | frontend/src/main.js:14-25 | default filter `all`, sort `date`, nothing staged, the stored theme restored, and one fetch made |
| `Frontend.TodoApp.LoadTasks` | frontend/src/main.js:80-88 | one fetch; the list becomes the store's, or stays as it was when the fetch fails |
| `Frontend.TodoApp.Draft` | frontend/src/main.js:90-119 | the created task is not started, has the trimmed title and description, the priority of the selector's value (in 1..3), the given id and creation instant, and the end-date input as deadline |
| `Frontend.TodoApp.AddTask` | frontend/src/main.js:90-139 | an empty trimmed title changes nothing. A refused create alerts and keeps the form. A successful create appends the draft, reloads and resets the form |
| `Frontend.TodoApp.Submit` | frontend/src/main.js:123-138 | a refused create alerts and keeps the form and the list; a successful create appends the task, reloads and resets the form |
| `Frontend.TodoApp.ToggleTask` | frontend/src/main.js:141-172 | an empty id alerts before any call. An unlisted id makes no call. Otherwise the next status is requested for that id and, on success, the list is reloaded |
| `Frontend.TodoApp.StartTask` | frontend/src/main.js:2-13 | an empty id alerts before any call. Otherwise in-progress is requested whatever the current status and, on success, the list is reloaded |
| `Frontend.TodoApp.ShowDeleteModal` | frontend/src/main.js:174-178 | the task is staged for deletion |
| `Frontend.TodoApp.ShowDeleteModalById` | frontend/src/main.js:449-464 | stages the first listed task with that id, or alerts that there is none and keeps the stage |
| `Frontend.TodoApp.HideDeleteModal` | frontend/src/main.js:180-183 | the stage is cleared |
| `Frontend.TodoApp.DeleteTask` | frontend/src/main.js:185-203 | nothing staged: no effect. Empty id: alert and no call. Refused delete: alert and the stage kept. Success: the task is removed from the store, the list reloaded and the stage cleared |
| `Frontend.TodoApp.SetFilter` | frontend/src/main.js:205-215 | the filter is selected and the list reloaded |
| `Frontend.TodoApp.SetSort` | frontend/src/main.js:67-70 | the sort order is selected |
| `Frontend.TodoApp.ToggleTheme` | frontend/src/main.js:217-222 | the theme flips and the new theme is written under `theme` |
| `Frontend.TodoApp.LoadTheme` | frontend/src/main.js:224-229 | the stored theme is restored, light when none is stored |
| `Frontend.TodoApp.View` | frontend/src/main.js:233-318 | rendering shows each task matching the current filter as often as it is listed, and reads the list without changing it |
| `Frontend.CreateThenLoad` | frontend/src/main.js:90-139 | creating "Buy milk" with priority high stores, last, a not-started task with that title, priority 3 and the given id |
| `Frontend.TrimBuyMilk` | frontend/src/main.js:91 | trimming a title without surrounding spaces keeps it |
| `Frontend.ThemeSurvivesReload` | frontend/src/main.js:217-229 | the theme chosen by the toggle is the one a new view restores |
| `Frontend.StageThenCancelOrConfirm` | frontend/src/main.js:174-203 | staging then cancelling keeps the list and the store and clears the stage; staging then confirming removes the task from the store, keeps every task with another id and clears the stage |
| `Core.Message` | backend/internal/app/core/errors.go:6-8 | each of the three fixed errors has its message text, and a storage error carries the repository's own message |
| `Repository.TaskRepository.GetAll` | backend/internal/domain/repository/task_repository.go:11 | returns the stored list, or the read error when reading fails |
| `Repository.TaskRepository.SaveAll` | backend/internal/domain/repository/task_repository.go:12 | replaces the stored list, or reports the write error and keeps it |
| `Service.IndexOfId` | backend/internal/app/service/task_service.go:55-60 | the position of the first task with the id, or the length when none has it |
| `Service.ReplaceFirst` | backend/internal/app/service/task_service.go:55-60 | only the first task with the id is replaced; every other position and the length are kept |
| `Service.ReplaceFirstKeepsIds` | backend/internal/app/service/task_service.go:55-62 | a replacement keeps the id at every position |
| `Service.ReplaceFirstThenFind` | backend/internal/app/service/task_service.go:55-62 | after a replacement the first task with that id is the new task, and replacing again changes nothing |
| `Service.RemoveFirst` | backend/internal/app/service/task_service.go:71-76 | exactly the first task with the id is removed and the others keep their order; without a match the list is unchanged |
| `Service.RemoveFirstOfUnique` | backend/internal/app/service/task_service.go:71-78 | with unique ids, no task with that id remains and the ids stay unique |
| `Service.Keeps` | backend/internal/app/service/task_service.go:88-111 | the per-task test of the filter loop: `All` keeps every task, `Active` the open and `Completed` the completed ones, the three date filters open tasks due in their window, an unknown filter none |
| `Service.KeepsMeaning` | backend/internal/app/service/task_service.go:88-111 | `All` keeps every task and an unknown filter none; `Active` and `Completed` split on the completion flag; the date filters keep open tasks only |
| `Service.Filtered` | backend/internal/app/service/task_service.go:86-112 | an order-preserving subsequence holding each kept task exactly as often as the input and nothing else |
| `Service.AllAndUnknownFilters` | backend/internal/app/service/task_service.go:88-111 | `All` returns the input; an unrecognised filter returns nothing |
| `Service.ActiveAndCompletedSplit` | backend/internal/app/service/task_service.go:91-98 | `Active` and `Completed` together hold every input task exactly as often as the input |
| `Service.DateFiltersKeepOpenTasks` | backend/internal/app/service/task_service.go:99-110 | `Today`, `Week` and `Overdue` keep only open tasks, and a task `Today` keeps that is still to come is kept by `Week` |
| `Service.UndatedOpenTaskIsOverdue` | backend/internal/app/service/task_service.go:107-110 | a task with the zero due date is overdue exactly while it is open |
| `Service.Rank` | backend/internal/app/service/task_service.go:127-131 | ranks lie in 0..2, 2 exactly for low, 1 exactly for medium; an unknown priority reads rank 0 |
| `Service.Less` | backend/internal/app/service/task_service.go:123-137 | the comparison handed to the sort: newer first for `SortDate`; for `SortPriority` newer first among equal priorities, else by rank; nothing under another key |
| `Service.LessMeaning` | backend/internal/app/service/task_service.go:123-137 | the comparison is irreflexive and empty under an unknown key; the date order and priority ties put the newer task first; between two different known priorities, high precedes both others and medium precedes low |
| `Service.LessAsymmetric` | backend/internal/app/service/task_service.go:123-137 | neither comparison ever holds both ways |
| `Service.NotLessTransitive` | backend/internal/app/service/task_service.go:123-137 | on tasks with known priorities "not before" is transitive, so the comparison is a strict weak order |
| `Service.UnknownPriorityBreaksOrder` | backend/internal/app/service/task_service.go:127-137 | with an unknown priority the priority comparison is not a strict weak order |
| `Service.OrderedMeaning` | backend/internal/app/service/task_service.go:121-138 | an ordered list is newest first for `SortDate`, and by rank then newest first for `SortPriority` |
| `Service.InsertionSort` | backend/internal/app/service/task_service.go:121-138 | the in-place sort permutes the array and orders it whenever the comparison is consistent on its elements |
| `Service.SinkLast` | backend/internal/app/service/task_service.go:121-138 | one insertion step permutes the array and extends the ordered prefix by one |
| `Service.TaskService.GetAllTasks` | backend/internal/app/service/task_service.go:21-23 | returns the stored list, or the read error |
| `Service.TaskService.AddTask` | backend/internal/app/service/task_service.go:25-47 | a read error returns before any save. Otherwise exactly one open task with the given fields is appended and saved; a write error keeps the list |
| `Service.TaskService.UpdateTask` | backend/internal/app/service/task_service.go:49-63 | a read error returns before any save. Otherwise the list with its first same-id task replaced is saved |
| `Service.TaskService.DeleteTask` | backend/internal/app/service/task_service.go:65-79 | a read error returns before any save. Otherwise the list without its first task of that id is saved |
| `Service.TaskService.FilterTasks` | backend/internal/app/service/task_service.go:81-115 | the loop result is exactly the filtered subsequence |
| `Service.TaskService.SortTasks` | backend/internal/app/service/task_service.go:117-141 | a permutation, unchanged for an unknown key, newest first for `SortDate`, by rank then newest first for `SortPriority` on known priorities |
| `Handler.ToggleFirst` | backend/internal/adapter/handler/handler.go:54-59 | only the completion flag of the first task with the id changes; every other field and task is kept |
| `Handler.ToggleTwice` | backend/internal/adapter/handler/handler.go:56-57 | toggling the same id twice restores the list |
| `Handler.TaskHandlers.GetTasks` | backend/internal/adapter/handler/handler.go:20-30 | propagates the read error; otherwise returns the stored tasks the filter keeps, sorted by the key |
| `Handler.TaskHandlers.AddTask` | backend/internal/adapter/handler/handler.go:32-38 | the exact empty text is refused without touching the repository; any other text is added as the service adds it |
| `Handler.TaskHandlers.UpdateTask` | backend/internal/adapter/handler/handler.go:40-42 | delegates to the service's replace-and-save |
| `Handler.TaskHandlers.DeleteTask` | backend/internal/adapter/handler/handler.go:44-46 | delegates to the service's remove-and-save |
| `Handler.TaskHandlers.ToggleTask` | backend/internal/adapter/handler/handler.go:48-62 | a read error or an unknown id (not found) saves nothing. Otherwise the list with the first match's flag flipped is saved |
| `Handler.ParseFilterType` | backend/internal/adapter/handler/handler.go:65-80 | always a filter constant; each constant parses to itself and anything else to `All` |
| `Handler.ParseSortType` | backend/internal/adapter/handler/handler.go:83-90 | always a sort constant; `SortDate` exactly for the string `priority` |
| `Handler.ParseSortTypeSwapsNames` | backend/internal/adapter/handler/handler.go:83-90 | neither sort constant parses to itself |
| `Handler.ParseSortTypeIntended` | backend/internal/adapter/handler/handler.go:83-90 | each sort constant parses to itself and anything else to `SortDate` |
| `Handler.ParsePriority` | backend/internal/adapter/handler/handler.go:93-102 | always a priority constant; each constant parses to itself; medium exactly for `2`/`medium`, high exactly for `3`/`high` |
| `Handler.ParsePriorityIdempotent` | backend/internal/adapter/handler/handler.go:93-102 | parsing a parsed priority again changes nothing |

## Left out

- DOM and markup work is not modelled:
  - element lookup and event binding;
  - the task markup of `renderTasks` and its empty-state shortcut;
  - `escapeHtml`, which needs a DOM node;
  - `formatDate`, which depends on the locale;
  - console logging.
  `TodoApp.View` stands for the list the markup is built from.
- Asynchrony is not modelled. Each bridge call runs to completion before the next, and calls in flight at the same time are not modelled.
- The store behind `window.go.main.App` (app.go) calls a service that is not part of this model. The `Bridge` class takes it to keep a list and apply each successful call to it.
- Time and randomness are parameters:
  - `generateUUID`, `generateID`, `new Date()` and `time.Now()`;
  - the local-calendar arithmetic of JavaScript's `Date` and Go's `time.Date` and `AddDate`, with its time zones and daylight-saving shifts.
  The day boundaries are inputs. `TaskView.WeekEnd` and `TaskView.ClockAt` compute them on a calendar without shifts.
- Instants are integers. Front-end instants are milliseconds and backend instants are nanoseconds; ISO-8601 strings and their parsing are not modelled.
- An end date the form cannot parse is not modelled. In the source, `toISOString` then throws and the alert shows it; here the end-date input is already an optional instant.
- TaskView.StatusLabel: an unknown status named after a property every JavaScript object inherits (`toString`, `constructor`, `valueOf`, `__proto__` and the like) makes `statusLabels[status]` return that inherited member, so the source shows it rather than the name. The model has no prototype chain and shows the name.
- The created task's `Done: false` field is left out of the task record, which carries the status only.
- The `task.ID || task.id` duck typing is not modelled: each task field has one name.
- TaskView.ApplySort: a task without a priority or a creation instant, which the source's comparator reads as 0, cannot occur because the record always carries both.
- Service.SortTasks: for `SortPriority`, ordering is promised only when every priority is low, medium or high. Permutation is promised always. An unknown priority reads rank 0 like high but compares differently from high (`Service.UnknownPriorityBreaksOrder`), so Go's `sort.Slice` guarantees no arrangement for such lists.
- Service.InsertionSort is a stand-in: it replaces Go's `sort.Slice` algorithm with an insertion sort. The properties are stated only for the result, which is ordered on consistent comparisons and always a permutation. No claim is made about how ties are arranged, because `sort.Slice` is not stable.
- The file-backed repository is replaced by a list held in memory:
  - its file I/O, JSON marshalling and mutex are left out;
  - a failed read or write is a flag;
  - the `saveCalls` counter is a model device that lets contracts say whether a save happened.
- Repository.TaskRepository.SaveAll: a failed save is assumed to leave the stored list unchanged. The file-backed save uses `os.WriteFile`, which truncates the file first, so a write that fails part-way can leave a truncated file; the repository interface promises nothing about a failed save. Every "a write error keeps the list" clause of the service and handler methods rests on this assumption.
- Service.RemoveFirstOfUnique: its premise of unique ids is not something the service keeps. `generateID` formats the current time to the second, so two tasks added within one second share an id; update, toggle and delete then reach only the first of them, as `RemoveFirst` and `ReplaceFirst` state.
- The handler's `ToggleTask` reads the list twice, once itself and once inside `UpdateTask`. With no concurrent writer both reads return the same list.
- Go's nil slice is not told apart from an empty slice. For example, `FilterTasks` with an unrecognised filter returns nil.
- The deletion splice `append(tasks[:i], tasks[i+1:]...)` also rewrites the loaded slice's backing array. That aliasing is not modelled, and no caller observes it.
- These files are not part of this model: backend/internal/app/app.go, app.go, backend/internal/adapter/db/postgres.go, backend/internal/config/config.go and internal/domain/model/task.go. They are bridge wrappers, database and configuration code, and JSON decoding.

## Findings

| source | as written | input that shows it | evidently intended | confidence | as-written member | corrected member |
|---|---|---|---|---|---|---|
| backend/internal/adapter/handler/handler.go:83-90 | `ParseSortType` maps `"priority"` to `SortDate` and every other string, `"date"` included, to `SortPriority` | `ParseSortType("priority") == SortDate` and `ParseSortType("date") == SortPriority` | each sort name parses to its own constant, like `ParseFilterType` and `ParsePriority`, with the date order as the fallback | high that it is swapped, lower on the fallback; not executed | `Handler.ParseSortTypeSwapsNames` (about `Handler.ParseSortType`) | `Handler.ParseSortTypeIntended` |

Nothing else in the modelled core calls `ParseSortType`, so the corrected parser has no other user in the model.
