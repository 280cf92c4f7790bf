/** The task records the single-page client works with, as it receives them from the server,
    and the identifiers both sides share. Dates are integer timestamps; ids are opaque strings. */
module TaskTypes {
  import opened Wrappers

  type TaskId = string

  type UserId = string

  /** A task as held in the client's in-memory collection. `dueDate` is optional;
      `createdAt` arrives with the server's answer. */
  datatype Task = Task(
    id: TaskId,
    title: string,
    description: Option<string>,
    completed: bool,
    dueDate: Option<int>,
    createdAt: int)

  /** What the create and edit form submits. */
  datatype TaskFormData = TaskFormData(title: string, description: string, dueDate: Option<int>)

  predicate IsCompleted(t: Task) { t.completed }

  predicate IsPending(t: Task) { !t.completed }
}
