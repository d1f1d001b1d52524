/** The task entity: its fields, the properties a caller passes in, and the
    constructor that fills in defaults. */
module Tasks {
  import opened Wrappers

  /** A point in time in milliseconds, as `Date.getTime()` gives it. */
  type Timestamp = int

  datatype Priority = High | Medium | Low

  datatype Status = Todo | InProgress | Completed

  datatype Task = Task(
    id: string,
    title: string,
    description: string,
    dueDate: Timestamp,
    priority: Priority,
    status: Status,
    tags: seq<string>,
    createdAt: Timestamp,
    updatedAt: Timestamp)

  /** `TaskProps`: the optional fields are `None` when the caller leaves them out. */
  datatype TaskProps = TaskProps(
    id: Option<string>,
    title: string,
    description: string,
    dueDate: Timestamp,
    priority: Priority,
    status: Option<Status>,
    tags: Option<seq<string>>,
    createdAt: Option<Timestamp>,
    updatedAt: Option<Timestamp>)

  /** `given || generated`: JavaScript treats an empty string as missing. */
  function IdOr(given: Option<string>, freshId: string): string {
    if given.Some? && given.value != "" then given.value else freshId
  }

  /** `new Task(props)`, with `now` for `new Date()` and `freshId` for
      `crypto.randomUUID()`. */
  function NewTask(props: TaskProps, now: Timestamp, freshId: string): Task {
    Task(
      IdOr(props.id, freshId),
      props.title,
      props.description,
      props.dueDate,
      props.priority,
      if props.status.Some? then props.status.value else Todo,
      if props.tags.Some? then props.tags.value else [],
      if props.createdAt.Some? then props.createdAt.value else now,
      if props.updatedAt.Some? then props.updatedAt.value else now)
  }

  /** The defaults the constructor fills in, and the fields it copies. */
  lemma NewTaskDefaults(props: TaskProps, now: Timestamp, freshId: string)
    ensures var t := NewTask(props, now, freshId);
      && (props.id.Some? && props.id.value != "" ==> t.id == props.id.value)
      && (props.id.None? || props.id.value == "" ==> t.id == freshId)
      && t.title == props.title && t.description == props.description
      && t.dueDate == props.dueDate && t.priority == props.priority
      && (props.status.None? ==> t.status == Todo)
      && (props.tags.None? ==> t.tags == [])
      && (props.createdAt.None? ==> t.createdAt == now)
      && (props.updatedAt.None? ==> t.updatedAt == now)
  {
  }

  /** Every field of `t`, given explicitly. */
  function PropsOf(t: Task): TaskProps {
    TaskProps(Some(t.id), t.title, t.description, t.dueDate, t.priority,
              Some(t.status), Some(t.tags), Some(t.createdAt), Some(t.updatedAt))
  }

  /** Given every field, the constructor uses none of its defaults: it rebuilds
      the task exactly, whatever the clock and the id generator say. */
  lemma NewTaskRebuilds(t: Task, now: Timestamp, freshId: string)
    requires t.id != ""
    ensures NewTask(PropsOf(t), now, freshId) == t
  {
  }
}
