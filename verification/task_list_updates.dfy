/** How the task list reconciles its in-memory collection with the outcome of each call:
    replace on fetch, prepend on create, replace by id on update and toggle, remove by id
    on delete, and keep the collection as it was whenever the call is rejected. */
module TaskListUpdates {
  import opened Wrappers
  import opened TaskTypes
  import opened Seqs

  /** No entry of the collection carries `id`. */
  predicate IdAbsent(tasks: seq<Task>, id: TaskId) {
    forall t :: t in tasks ==> t.id != id
  }

  /** Every entry whose id is `id` replaced by `u`, every other entry left in place. */
  function ReplaceById(tasks: seq<Task>, id: TaskId, u: Task): (r: seq<Task>)
    ensures |r| == |tasks|
    ensures forall i :: 0 <= i < |tasks| && tasks[i].id != id ==> r[i] == tasks[i]
    ensures forall i :: 0 <= i < |tasks| && tasks[i].id == id ==> r[i] == u
  {
    seq(|tasks|, i requires 0 <= i < |tasks| => if tasks[i].id == id then u else tasks[i])
  }

  /** The keep-predicate of a delete. */
  function OtherThan(id: TaskId): Task -> bool {
    (t: Task) => t.id != id
  }

  /** Every entry whose id is `id` dropped, the others kept in order. */
  function RemoveById(tasks: seq<Task>, id: TaskId): (r: seq<Task>)
    ensures IdAbsent(r, id)
    ensures forall t: Task :: t.id != id ==> multiset(r)[t] == multiset(tasks)[t]
    ensures IsSubsequence(r, tasks)
  {
    FilterMultiplicity(tasks, OtherThan(id));
    FilterIsSubsequence(tasks, OtherThan(id));
    Filter(tasks, OtherThan(id))
  }

  /** After the (debounced) fetch: a successful list replaces the collection. */
  function AfterFetch(tasks: seq<Task>, fetched: Result<seq<Task>>): (r: seq<Task>)
    ensures fetched.Success? ==> r == fetched.value
    ensures fetched.Failure? ==> r == tasks
  {
    match fetched
    case Success(data) => data
    case Failure(_) => tasks
  }

  /** After a create call: the new task goes in front, the old entries follow unchanged. */
  function AfterCreate(tasks: seq<Task>, created: Result<Task>): (r: seq<Task>)
    ensures created.Success? ==> |r| == |tasks| + 1 && r[0] == created.value && r[1..] == tasks
    ensures created.Failure? ==> r == tasks
  {
    match created
    case Success(t) => [t] + tasks
    case Failure(_) => tasks
  }

  /** After an edit: nothing happens when no task is being edited; otherwise every entry
      whose id is the id of the returned task is replaced by it. */
  function AfterUpdate(tasks: seq<Task>, editing: Option<Task>, updated: Result<Task>): (r: seq<Task>)
    ensures editing.None? || updated.Failure? ==> r == tasks
    ensures |r| == |tasks|
    ensures forall i :: 0 <= i < |tasks| && (updated.Failure? || tasks[i].id != updated.value.id) ==> r[i] == tasks[i]
    ensures editing.Some? && updated.Success? ==>
      forall i :: 0 <= i < |tasks| && tasks[i].id == updated.value.id ==> r[i] == updated.value
  {
    if editing.None? then tasks
    else match updated
      case Success(u) => ReplaceById(tasks, u.id, u)
      case Failure(_) => tasks
  }

  /** After a toggle of `id`: every entry whose id is `id` is replaced by the returned task. */
  function AfterToggle(tasks: seq<Task>, id: TaskId, toggled: Result<Task>): (r: seq<Task>)
    ensures toggled.Failure? ==> r == tasks
    ensures |r| == |tasks|
    ensures forall i :: 0 <= i < |tasks| && (toggled.Failure? || tasks[i].id != id) ==> r[i] == tasks[i]
    ensures toggled.Success? ==> forall i :: 0 <= i < |tasks| && tasks[i].id == id ==> r[i] == toggled.value
  {
    match toggled
    case Success(u) => ReplaceById(tasks, id, u)
    case Failure(_) => tasks
  }

  /** After a delete of `id`: every entry with that id leaves the collection. */
  function AfterDelete(tasks: seq<Task>, id: TaskId, deleted: Result<()>): (r: seq<Task>)
    ensures deleted.Failure? ==> r == tasks
    ensures deleted.Success? ==> IdAbsent(r, id)
    ensures forall t: Task :: t.id != id ==> multiset(r)[t] == multiset(tasks)[t]
    ensures IsSubsequence(r, tasks)
  {
    match deleted
    case Success(_) => RemoveById(tasks, id)
    case Failure(_) => IsSubsequenceRefl(tasks); tasks
  }

  /** An update for an id the collection does not hold changes nothing. */
  lemma ReplaceAbsentId(tasks: seq<Task>, id: TaskId, u: Task)
    requires IdAbsent(tasks, id)
    ensures ReplaceById(tasks, id, u) == tasks
  {
  }

  /** Replacing by an id with a task that keeps that id is idempotent and keeps the
      id at every position. */
  lemma ReplaceIdempotent(tasks: seq<Task>, u: Task)
    ensures ReplaceById(ReplaceById(tasks, u.id, u), u.id, u) == ReplaceById(tasks, u.id, u)
    ensures forall i :: 0 <= i < |tasks| ==> ReplaceById(tasks, u.id, u)[i].id == tasks[i].id
  {
  }

  /** A delete of an id the collection does not hold changes nothing. */
  lemma RemoveAbsentId(tasks: seq<Task>, id: TaskId)
    requires IdAbsent(tasks, id)
    ensures RemoveById(tasks, id) == tasks
  {
    FilterKeepsAll(tasks, OtherThan(id));
  }

  /** Deleting the same id twice is deleting it once. */
  lemma RemoveIdempotent(tasks: seq<Task>, id: TaskId)
    ensures RemoveById(RemoveById(tasks, id), id) == RemoveById(tasks, id)
  {
    FilterIdempotent(tasks, OtherThan(id));
  }

  /** Creating a task with a fresh id and then deleting it restores the collection. */
  lemma CreateThenDelete(tasks: seq<Task>, t: Task)
    requires IdAbsent(tasks, t.id)
    ensures AfterDelete(AfterCreate(tasks, Success(t)), t.id, Success(())) == tasks
  {
    assert ([t] + tasks)[1..] == tasks;
    RemoveAbsentId(tasks, t.id);
  }

  /** When the server answers a toggle with a task carrying the toggled id, the list
      reconciles exactly as it does after an edit of that task. */
  lemma ToggleReconcilesLikeUpdate(tasks: seq<Task>, editing: Task, u: Task)
    requires u.id == editing.id
    ensures AfterToggle(tasks, editing.id, Success(u)) == AfterUpdate(tasks, Some(editing), Success(u))
  {
  }
}
