/** The in-memory task registry: a `Map` from id to task, a six-rule
    validation, create/read/update/delete operations that report failures to
    the error channel and hand back a sentinel, and three orderings of the
    stored tasks for the list, board and sprint views. */
module TaskManagement {
  import opened Wrappers
  import opened JsArray
  import opened JsMap
  import opened JsSort
  import opened Validation
  import opened Tasks
  import opened ErrorChannel

  const TitleEmpty := "Task title cannot be empty"
  const TitleTooLong := "Task title cannot exceed 100 characters"
  const DescriptionTooLong := "Task description cannot exceed 500 characters"
  const DueDateInPast := "Due date cannot be in the past"
  const TooManyTags := "Cannot have more than 10 tags"
  const TagTooLong := "Tag length cannot exceed 20 characters"
  const TaskNotFound := "Task not found"
  const DeleteNotFound := "Cannot delete: Task not found"

  /** The rules of `validateTask`, in the order they are checked. */
  function TaskChecks(t: Task, now: Timestamp): seq<Check> {
    [ Check(t.title != "", TitleEmpty),
      Check(|t.title| <= 100, TitleTooLong),
      Check(|t.description| <= 500, DescriptionTooLong),
      Check(!(t.dueDate < now), DueDateInPast),
      Check(|t.tags| <= 10, TooManyTags),
      Check(forall i | 0 <= i < |t.tags| :: |t.tags[i]| <= 20, TagTooLong) ]
  }

  /** The rules that do not depend on the clock. */
  predicate MeetsStoredRules(t: Task) {
    && t.title != ""
    && |t.title| <= 100
    && |t.description| <= 500
    && |t.tags| <= 10
    && forall i | 0 <= i < |t.tags| :: |t.tags[i]| <= 20
  }

  /** A task `validateTask` accepts at time `now`. */
  predicate IsValidTask(t: Task, now: Timestamp) {
    MeetsStoredRules(t) && now <= t.dueDate
  }

  /** `validateTask(task)`: `None` when it returns, `Some(message)` when it
      throws. */
  function ValidateTask(t: Task, now: Timestamp): (r: Option<string>)
    ensures r.None? <==> IsValidTask(t, now)
  {
    var checks := TaskChecks(t, now);
    assert IsValidTask(t, now) <==> forall i | 0 <= i < |checks| :: checks[i].passes by {
      if IsValidTask(t, now) {
        forall i | 0 <= i < |checks| ensures checks[i].passes {
        }
      } else if t.title == "" {
        assert !checks[0].passes;
      } else if |t.title| > 100 {
        assert !checks[1].passes;
      } else if |t.description| > 500 {
        assert !checks[2].passes;
      } else if t.dueDate < now {
        assert !checks[3].passes;
      } else if |t.tags| > 10 {
        assert !checks[4].passes;
      } else {
        assert !checks[5].passes;
      }
    }
    FirstFailure(checks)
  }

  /** The message thrown is that of the first broken rule, in the order empty
      title, long title, long description, past due date, too many tags, long
      tag. */
  lemma ValidationReportsFirstBrokenRule(t: Task, now: Timestamp)
    ensures var r := ValidateTask(t, now);
      && (r == Some(TitleEmpty) <==> t.title == "")
      && (r == Some(TitleTooLong) <==> t.title != "" && |t.title| > 100)
      && (r == Some(DescriptionTooLong) <==>
            t.title != "" && |t.title| <= 100 && |t.description| > 500)
      && (r == Some(DueDateInPast) <==>
            t.title != "" && |t.title| <= 100 && |t.description| <= 500 && t.dueDate < now)
      && (r == Some(TooManyTags) <==>
            t.title != "" && |t.title| <= 100 && |t.description| <= 500 && now <= t.dueDate
            && |t.tags| > 10)
      && (r == Some(TagTooLong) <==>
            t.title != "" && |t.title| <= 100 && |t.description| <= 500 && now <= t.dueDate
            && |t.tags| <= 10 && exists i | 0 <= i < |t.tags| :: |t.tags[i]| > 20)
  {
    var checks := TaskChecks(t, now);
    if t.title == "" {
      FirstFailureAt(checks, 0);
    } else if |t.title| > 100 {
      FirstFailureAt(checks, 1);
    } else if |t.description| > 500 {
      FirstFailureAt(checks, 2);
    } else if t.dueDate < now {
      FirstFailureAt(checks, 3);
    } else if |t.tags| > 10 {
      FirstFailureAt(checks, 4);
    } else if exists i | 0 <= i < |t.tags| :: |t.tags[i]| > 20 {
      FirstFailureAt(checks, 5);
    }
  }

  /** `Partial<Task>`: the fields an update supplies. */
  datatype TaskPatch = TaskPatch(
    id: Option<string>,
    title: Option<string>,
    description: Option<string>,
    dueDate: Option<Timestamp>,
    priority: Option<Priority>,
    status: Option<Status>,
    tags: Option<seq<string>>,
    createdAt: Option<Timestamp>,
    updatedAt: Option<Timestamp>)

  /** An update that supplies nothing. */
  const NoChanges := TaskPatch(None, None, None, None, None, None, None, None, None)

  /** A supplied field wins over the stored one. */
  function Pick<T>(update: Option<T>, current: T): T {
    if update.Some? then update.value else current
  }

  /** The record `updateTask` builds: the stored task, overwritten by every
      supplied field, then stamped with the update time. */
  function ApplyPatch(t: Task, p: TaskPatch, now: Timestamp): Task {
    Task(
      Pick(p.id, t.id),
      Pick(p.title, t.title),
      Pick(p.description, t.description),
      Pick(p.dueDate, t.dueDate),
      Pick(p.priority, t.priority),
      Pick(p.status, t.status),
      Pick(p.tags, t.tags),
      Pick(p.createdAt, t.createdAt),
      now)
  }

  /** Every field of `u` except its last-update time, supplied. */
  function PatchOf(u: Task): TaskPatch {
    TaskPatch(Some(u.id), Some(u.title), Some(u.description), Some(u.dueDate),
              Some(u.priority), Some(u.status), Some(u.tags), Some(u.createdAt), None)
  }

  /** The merged record takes each supplied field, keeps the others, and is
      stamped with the update time whatever `updatedAt` the caller supplied. */
  lemma PatchMergesFieldwise(t: Task, p: TaskPatch, now: Timestamp)
    ensures ApplyPatch(t, NoChanges, now) == t.(updatedAt := now)
    ensures forall stamp :: ApplyPatch(t, p.(updatedAt := stamp), now) == ApplyPatch(t, p, now)
    ensures ApplyPatch(ApplyPatch(t, p, now), p, now) == ApplyPatch(t, p, now)
    ensures forall u: Task :: ApplyPatch(t, PatchOf(u), now) == u.(updatedAt := now)
  {
  }

  /** Once a task's due date has passed, every update that does not move the
      due date is rejected, whatever else it changes. */
  lemma OverdueTaskRejectsUpdates(t: Task, p: TaskPatch, now: Timestamp)
    requires t.dueDate < now && p.dueDate.None?
    ensures ValidateTask(ApplyPatch(t, p, now), now).Some?
  {
  }

  /** Every task is stored under its own id. */
  predicate KeysMatchIds(tasks: OrderedMap<string, Task>) {
    forall id | id in tasks.entries :: tasks.entries[id].id == id
  }

  /** Storing a task under its own id keeps every task under its own id. */
  lemma CreateKeepsKeysMatchingIds(tasks: OrderedMap<string, Task>, t: Task)
    requires KeysMatchIds(tasks)
    ensures KeysMatchIds(tasks.Set(t.id, t))
  {
  }

  /** An update is stored under the id it was asked for, so every task stays
      under its own id exactly when the update supplies no id or that same
      id. */
  lemma UpdateKeepsKeysMatchingIdsIff(tasks: OrderedMap<string, Task>, id: string, p: TaskPatch, now: Timestamp)
    requires KeysMatchIds(tasks) && id in tasks.entries
    ensures KeysMatchIds(tasks.Set(id, ApplyPatch(tasks.entries[id], p, now)))
        <==> p.id.None? || p.id.value == id
  {
    var after := tasks.Set(id, ApplyPatch(tasks.entries[id], p, now));
    assert after.entries[id].id == Pick(p.id, id);
  }

  /** Writes a failure to the error channel the way `addError(message)` does. */
  function Logged(s: ChannelState, message: string, now: Timestamp, errorId: string): ChannelState {
    AfterAdd(s, ErrorState(message, None, now, errorId))
  }

  /** The three views `getTasksByView` accepts. */
  datatype View = List | Kanban | Sprint

  /** `statusOrder` of the board view. */
  function KanbanRank(s: Status): int {
    match s
    case Todo => 0
    case InProgress => 1
    case Completed => 2
  }

  /** `priorityOrder` of the sprint view. */
  function SprintRank(p: Priority): int {
    match p
    case High => 0
    case Medium => 1
    case Low => 2
  }

  /** The comparator each view sorts with. */
  function ViewComparison(view: View): (Task, Task) -> int {
    match view
    case List => (a: Task, b: Task) => a.dueDate - b.dueDate
    case Kanban => (a: Task, b: Task) => KanbanRank(a.status) - KanbanRank(b.status)
    case Sprint => (a: Task, b: Task) =>
                     if a.priority == b.priority then a.dueDate - b.dueDate
                     else SprintRank(a.priority) - SprintRank(b.priority)
  }

  /** What a view promises about a task `a` listed before a task `b`. */
  predicate InViewOrderPair(a: Task, b: Task, view: View) {
    match view
    case List => a.dueDate <= b.dueDate
    case Kanban => KanbanRank(a.status) <= KanbanRank(b.status)
    case Sprint =>
      && SprintRank(a.priority) <= SprintRank(b.priority)
      && (a.priority == b.priority ==> a.dueDate <= b.dueDate)
  }

  /** Any two tasks are in the view's order. */
  predicate InViewOrder(s: seq<Task>, view: View) {
    forall i, j | 0 <= i < j < |s| :: InViewOrderPair(s[i], s[j], view)
  }

  /** Each view's comparator is a consistent one: antisymmetric in sign,
      transitive, and its ties are transitive. */
  lemma ViewComparisonIsConsistent(view: View)
    ensures SignAntisymmetric(ViewComparison(view))
    ensures NonPositiveTransitive(ViewComparison(view))
    ensures TiesTransitive(ViewComparison(view))
  {
    var cmp := ViewComparison(view);
    if view == Sprint {
      forall a: Task, b: Task, c: Task | cmp(a, b) <= 0 && cmp(b, c) <= 0
        ensures cmp(a, c) <= 0
      {
        assert SprintRank(a.priority) <= SprintRank(b.priority) <= SprintRank(c.priority);
      }
      forall a: Task, b: Task, c: Task | cmp(a, c) == 0 && cmp(b, c) == 0
        ensures cmp(a, b) == 0
      {
        assert a.priority == c.priority && b.priority == c.priority;
      }
    }
  }

  /** Each view is a reordering of the tasks it is given, in that view's
      order, with tasks the view ties kept in their given order. */
  lemma ViewOrder(s: seq<Task>, view: View)
    ensures var r := InsertionSort(s, ViewComparison(view));
      && multiset(r) == multiset(s)
      && InViewOrder(r, view)
      && forall e :: Filter(r, TiedWith(ViewComparison(view), e)) == Filter(s, TiedWith(ViewComparison(view), e))
  {
    var cmp := ViewComparison(view);
    var r := InsertionSort(s, cmp);
    ViewComparisonIsConsistent(view);
    SortPermutes(s, cmp);
    SortSorts(s, cmp);
    AdjacentSortedIsSorted(r, cmp);
    forall e ensures Filter(r, TiedWith(cmp, e)) == Filter(s, TiedWith(cmp, e)) {
      SortIsStable(s, cmp, e);
    }
    forall i, j | 0 <= i < j < |r| ensures InViewOrderPair(r[i], r[j], view) {
      assert cmp(r[i], r[j]) <= 0;
    }
  }

  class TaskManager {
    var tasks: OrderedMap<string, Task>
    const errorHandler: ErrorHandler

    /** The map is well formed and every stored task meets the rules that do
        not depend on the clock. */
    ghost predicate Valid()
      reads this
    {
      && tasks.Valid()
      && forall id | id in tasks.entries :: MeetsStoredRules(tasks.entries[id])
    }

    /** `new TaskManager()`: an empty registry that reports to the shared error
        channel. */
    constructor (slot: ErrorHandlerSlot)
      modifies slot
      ensures Valid() && tasks == EmptyMap()
      ensures errorHandler == slot.instance
      ensures old(slot.instance) != null ==> errorHandler == old(slot.instance)
    {
      var h := slot.GetInstance();
      errorHandler := h;
      tasks := EmptyMap();
    }

    /** `createTask(props)`, with `now` for the clock, `freshId` for the new
        task's id and `errorId` for the id of a reported error. */
    method CreateTask(props: TaskProps, now: Timestamp, freshId: string, errorId: string)
      returns (r: Option<Task>)
      requires Valid() && props.id.None?
      modifies this, errorHandler
      ensures Valid()
      ensures var t := NewTask(props, now, freshId);
        && (IsValidTask(t, now) ==>
              && r == Some(t) && tasks == old(tasks).Set(t.id, t)
              && tasks.Get(t.id) == Some(t)
              && unchanged(errorHandler))
        && (!IsValidTask(t, now) ==>
              && r == None && tasks == old(tasks)
              && errorHandler.State()
                 == Logged(old(errorHandler.State()), ValidateTask(t, now).value, now, errorId))
    {
      var t := NewTask(props, now, freshId);
      var failure := ValidateTask(t, now);
      if failure.Some? {
        errorHandler.AddError(failure.value, None, now, errorId);
        r := None;
      } else {
        tasks := tasks.Set(t.id, t);
        r := Some(t);
      }
    }

    /** `getTask(id)`. */
    method GetTask(id: string, now: Timestamp, errorId: string) returns (r: Option<Task>)
      modifies errorHandler
      ensures r == tasks.Get(id)
      ensures r.Some? ==> unchanged(errorHandler)
      ensures r.None? ==>
        errorHandler.State() == Logged(old(errorHandler.State()), TaskNotFound, now, errorId)
    {
      r := tasks.Get(id);
      if r.None? {
        errorHandler.AddError(TaskNotFound, None, now, errorId);
      }
    }

    /** `updateTask(id, updates)`. */
    method UpdateTask(id: string, patch: TaskPatch, now: Timestamp, errorId: string)
      returns (r: Option<Task>)
      requires Valid()
      modifies this, errorHandler
      ensures Valid()
      ensures id !in old(tasks.entries) ==>
        && r == None && tasks == old(tasks)
        && errorHandler.State() == Logged(old(errorHandler.State()), TaskNotFound, now, errorId)
      ensures id in old(tasks.entries) ==>
        var u := ApplyPatch(old(tasks.entries[id]), patch, now);
        && (IsValidTask(u, now) ==>
              r == Some(u) && tasks == old(tasks).Set(id, u) && unchanged(errorHandler))
        && (!IsValidTask(u, now) ==>
              && r == None && tasks == old(tasks)
              && errorHandler.State()
                 == Logged(old(errorHandler.State()), ValidateTask(u, now).value, now, errorId))
    {
      var current := tasks.Get(id);
      if current.None? {
        errorHandler.AddError(TaskNotFound, None, now, errorId);
        return None;
      }
      var u := ApplyPatch(current.value, patch, now);
      var failure := ValidateTask(u, now);
      if failure.Some? {
        errorHandler.AddError(failure.value, None, now, errorId);
        r := None;
      } else {
        tasks := tasks.Set(id, u);
        r := Some(u);
      }
    }

    /** `deleteTask(id)`. */
    method DeleteTask(id: string, now: Timestamp, errorId: string) returns (deleted: bool)
      requires Valid()
      modifies this, errorHandler
      ensures Valid()
      ensures deleted <==> id in old(tasks.entries)
      ensures deleted ==> tasks == old(tasks).Delete(id) && unchanged(errorHandler)
      ensures !deleted ==>
        && tasks == old(tasks)
        && errorHandler.State() == Logged(old(errorHandler.State()), DeleteNotFound, now, errorId)
    {
      if !tasks.Has(id) {
        errorHandler.AddError(DeleteNotFound, None, now, errorId);
        return false;
      }
      tasks := tasks.Delete(id);
      deleted := true;
    }

    /** `getAllTasks()`: a new array of the stored tasks in insertion order. */
    method GetAllTasks() returns (a: array<Task>)
      requires Valid()
      ensures fresh(a) && a[..] == tasks.Values()
    {
      var values := tasks.Values();
      a := new Task[|values|](i requires 0 <= i < |values| => values[i]);
    }

    /** `getTasksByView(view)`: a new array of the stored tasks in the view's
        order; the registry itself is not touched. */
    method GetTasksByView(view: View) returns (a: array<Task>)
      requires Valid()
      ensures fresh(a)
      ensures a[..] == InsertionSort(tasks.Values(), ViewComparison(view))
      ensures multiset(a[..]) == multiset(tasks.Values())
      ensures InViewOrder(a[..], view)
    {
      a := GetAllTasks();
      SortInPlace(a, ViewComparison(view));
      ViewOrder(tasks.Values(), view);
    }
  }
}
